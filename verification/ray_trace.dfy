/** `EngineRuntime.rayTrace`: walk along the view ray in small steps and
    select the first occupied cell together with the free cell just before
    it, the cell a new block would go into. The float stepping itself is
    not modelled: the positions the ray visits are given as a sequence of
    samples, and each is turned into a cell by Java's `(int)` cast. */
module RayTrace {
  import opened Wrappers
  import opened JavaInts
  import opened Vectors
  import opened Blocks
  import opened BlockStore

  /** `Settings.rayDistance * Settings.rayPrecision` = 100 * 100f samples. */
  const RaySteps: nat := 10000

  /** `new Vector3i((int)pos.x, (int)pos.y, (int)pos.z)`. */
  function CellOf(p: Vec3): Cell {
    Cell(IntCast(p.x), IntCast(p.y), IntCast(p.z))
  }

  function SampleCells(samples: seq<Vec3>): (cells: seq<Cell>)
    ensures |cells| == |samples|
    ensures forall i :: 0 <= i < |samples| ==> cells[i] == CellOf(samples[i])
  {
    seq(|samples|, i requires 0 <= i < |samples| => CellOf(samples[i]))
  }

  /** The two fields `selectedCord` and `lastCord`; `None` is `null`. */
  datatype Selection = Selection(selected: Option<Cell>, last: Option<Cell>)

  const NoSelection: Selection := Selection(None, None)

  /** The position of the first occupied cell, if any. */
  function FirstHit(m: Store, cells: seq<Cell>): (r: Option<nat>)
    ensures r.Some? ==> r.value < |cells| && cells[r.value] in m
    ensures r.Some? ==> forall j :: 0 <= j < r.value ==> cells[j] !in m
    ensures r.None? ==> forall j :: 0 <= j < |cells| ==> cells[j] !in m
  {
    if |cells| == 0 then None
    else if cells[0] in m then Some(0)
    else
      match FirstHit(m, cells[1..])
      case None => None
      case Some(k) => Some(k + 1)
  }

  /** The selection rule: stop at the first occupied cell; select it, and
      the cell sampled just before it, only when there was an earlier
      sample and that sample does not equal the camera position. */
  function Select(m: Store, cells: seq<Cell>, sameAsCamera: Cell -> bool): (s: Selection)
    ensures s.selected.Some? <==> s.last.Some?
    ensures s.selected.Some? ==> s.selected.value in m && s.last.value !in m && !sameAsCamera(s.last.value)
    ensures s.selected.Some? ==> exists k :: 0 < k < |cells| && s.selected.value == cells[k] && s.last.value == cells[k - 1]
    ensures (forall j :: 0 <= j < |cells| ==> cells[j] !in m) ==> s == NoSelection
  {
    match FirstHit(m, cells)
    case None => NoSelection
    case Some(k) =>
      if k > 0 && !sameAsCamera(cells[k - 1]) then Selection(Some(cells[k]), Some(cells[k - 1]))
      else NoSelection
  }

  lemma {:induction false} FirstHitAt(m: Store, cells: seq<Cell>, k: nat)
    requires k < |cells| && cells[k] in m
    requires forall j :: 0 <= j < k ==> cells[j] !in m
    ensures FirstHit(m, cells) == Some(k)
  {
    if k > 0 {
      FirstHitAt(m, cells[1..], k - 1);
    }
  }

  /** The loop of `rayTrace` over the samples: both selections start
      cleared and the walk breaks at the first occupied cell. */
  method Trace(m: Store, samples: seq<Vec3>, sameAsCamera: Cell -> bool) returns (sel: Selection)
    requires |samples| == RaySteps
    ensures sel == Select(m, SampleCells(samples), sameAsCamera)
  {
    ghost var cells := SampleCells(samples);
    var lastChecked: Option<Cell> := None;
    sel := NoSelection;
    var i := 0;
    while i < RaySteps
      invariant 0 <= i <= RaySteps
      invariant forall j :: 0 <= j < i ==> cells[j] !in m
      invariant lastChecked == if i == 0 then None else Some(cells[i - 1])
      invariant sel == NoSelection
    {
      var posI := CellOf(samples[i]);
      if CheckCord(m, posI) {
        FirstHitAt(m, cells, i);
        if lastChecked.Some? && !sameAsCamera(lastChecked.value) {
          sel := Selection(Some(posI), lastChecked);
        }
        return;
      }
      lastChecked := Some(posI);
      i := i + 1;
    }
  }

  /** The selection depends only on the first occupied sample and the one
      before it: the hit at sample k is selected exactly when k > 0 and
      sample k - 1 passes the camera guard. Java's guard compares a
      `Vector3i` with a `Vector3f`, so it always passes, and a hit at any
      sample but the first is selected. */
  lemma SelectFirstHit(m: Store, cells: seq<Cell>, sameAsCamera: Cell -> bool, k: nat)
    requires k < |cells| && cells[k] in m
    requires forall j :: 0 <= j < k ==> cells[j] !in m
    ensures Select(m, cells, sameAsCamera).selected.Some? <==> 0 < k && !sameAsCamera(cells[k - 1])
    ensures 0 < k && !sameAsCamera(cells[k - 1]) ==>
              Select(m, cells, sameAsCamera) == Selection(Some(cells[k]), Some(cells[k - 1]))
  {
    FirstHitAt(m, cells, k);
  }

  /** A hit at the very first sample selects nothing: there is no free
      cell before it to place a block into. */
  lemma StartInsideBlock(m: Store, cells: seq<Cell>, sameAsCamera: Cell -> bool)
    requires 0 < |cells| && cells[0] in m
    ensures Select(m, cells, sameAsCamera) == NoSelection
  {
    FirstHitAt(m, cells, 0);
  }

  /** Cells are found by truncation toward zero, not flooring: a sample at
      x = -0.3 lies in column 0, the column of x = 0.7. */
  lemma CellOfTruncates()
    ensures CellOf(Vec3(-0.3, 0.7, -1.5)) == Cell(0, 0, -1)
    ensures CellOf(Vec3(0.7, -0.3, 1.5)) == Cell(0, 0, 1)
  {
    TruncIsNotFloor(-0.3);
  }
}
