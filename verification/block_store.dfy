/** The engine's block map (`EngineRuntime.blocks`, a map from cell to
    block) and the operations on it that do not involve text: construction
    from an array, membership, the 5x5x5 neighbourhood scan and random
    generation. */
module BlockStore {
  import opened Wrappers
  import opened JavaInts
  import opened Vectors
  import opened Blocks

  type Store = map<Cell, Block>

  /** Every block is stored under its own coordinate. */
  predicate KeyedByCord(m: Store) {
    forall c :: c in m ==> m[c].cord == c
  }

  function CordsOf(bs: seq<Block>): set<Cell> {
    set i | 0 <= i < |bs| :: bs[i].cord
  }

  /** No later block in `bs` has the same coordinate as `bs[i]`. */
  predicate LastWithCord(bs: seq<Block>, i: nat)
    requires i < |bs|
  {
    forall j :: i < j < |bs| ==> bs[j].cord != bs[i].cord
  }

  /** `m.put(b.cord, b)` for each block in turn. */
  function PutAll(acc: Store, bs: seq<Block>): Store
    decreases |bs|
  {
    if |bs| == 0 then acc else PutAll(acc[bs[0].cord := bs[0]], bs[1..])
  }

  /** After the puts the map holds the earlier keys and every put
      coordinate; the last block put at a coordinate is the one kept; keys
      that were not put keep their blocks. */
  lemma {:induction false} PutAllFacts(acc: Store, bs: seq<Block>)
    ensures PutAll(acc, bs).Keys == acc.Keys + CordsOf(bs)
    ensures forall i :: 0 <= i < |bs| && LastWithCord(bs, i) ==> PutAll(acc, bs)[bs[i].cord] == bs[i]
    ensures forall c :: c in acc && c !in CordsOf(bs) ==> PutAll(acc, bs)[c] == acc[c]
    ensures KeyedByCord(acc) ==> KeyedByCord(PutAll(acc, bs))
    decreases |bs|
  {
    if |bs| > 0 {
      PutAllFacts(acc[bs[0].cord := bs[0]], bs[1..]);
      CordsCons(bs);
      assert forall i :: 1 <= i < |bs| ==> bs[1..][i - 1] == bs[i];
    }
  }

  lemma CordsCons(bs: seq<Block>)
    requires 0 < |bs|
    ensures CordsOf(bs) == {bs[0].cord} + CordsOf(bs[1..])
  {
    forall c | c in CordsOf(bs) ensures c in {bs[0].cord} + CordsOf(bs[1..]) {
      var i :| 0 <= i < |bs| && bs[i].cord == c;
      if i > 0 { assert bs[1..][i - 1] == bs[i]; }
    }
  }

  lemma CordsSnoc(bs: seq<Block>)
    requires 0 < |bs|
    ensures CordsOf(bs) == CordsOf(bs[..|bs| - 1]) + {bs[|bs| - 1].cord}
  {
    var front := bs[..|bs| - 1];
    forall c | c in CordsOf(bs) ensures c in CordsOf(front) + {bs[|bs| - 1].cord} {
      var i :| 0 <= i < |bs| && bs[i].cord == c;
      if i < |bs| - 1 { assert front[i] == bs[i]; }
    }
    forall c | c in CordsOf(front) ensures c in CordsOf(bs) {
      var i :| 0 <= i < |front| && front[i].cord == c;
      assert bs[i] == front[i];
    }
  }

  /** Every coordinate of `bs` appears once. */
  predicate DistinctCords(bs: seq<Block>) {
    forall i, j :: 0 <= i < j < |bs| ==> bs[i].cord != bs[j].cord
  }

  /** `bs` lists the values of `m`, each once: an iteration order of
      `m.values()`. */
  predicate IsEnumeration(m: Store, bs: seq<Block>) {
    && DistinctCords(bs)
    && (forall i :: 0 <= i < |bs| ==> bs[i].cord in m && m[bs[i].cord] == bs[i])
    && (forall c :: c in m ==> c in CordsOf(bs))
  }

  /** Putting the values of a map back under their coordinates rebuilds it. */
  lemma PutAllEnumeration(m: Store, bs: seq<Block>)
    requires KeyedByCord(m) && IsEnumeration(m, bs)
    ensures PutAll(map[], bs) == m
  {
    var r := PutAll(map[], bs);
    PutAllFacts(map[], bs);
    assert r.Keys == m.Keys;
    forall c | c in m
      ensures r[c] == m[c]
    {
      var i :| 0 <= i < |bs| && bs[i].cord == c;
      assert LastWithCord(bs, i);
    }
  }

  lemma {:induction false} DistinctCordsCardinality(bs: seq<Block>)
    requires DistinctCords(bs)
    ensures |CordsOf(bs)| == |bs|
  {
    if |bs| > 0 {
      var front := bs[..|bs| - 1];
      var last := bs[|bs| - 1];
      DistinctCordsCardinality(front);
      CordsSnoc(bs);
      forall i | 0 <= i < |front| ensures front[i].cord != last.cord {
        assert front[i] == bs[i];
      }
      assert last.cord !in CordsOf(front);
    }
  }

  /** A map has exactly as many entries as any enumeration of its values. */
  lemma EnumerationSize(m: Store, bs: seq<Block>)
    requires IsEnumeration(m, bs)
    ensures |m| == |bs|
  {
    assert m.Keys == CordsOf(bs);
    DistinctCordsCardinality(bs);
  }

  /** No later present element of `init` has the coordinate of `init[i]`. */
  predicate LastPresent(init: seq<Option<Block>>, i: nat)
    requires i < |init| && init[i].Some?
  {
    forall j :: i < j < |init| && init[j].Some? ==> init[j].value.cord != init[i].value.cord
  }

  predicate HasNull(init: seq<Option<Block>>) {
    exists i :: 0 <= i < |init| && init[i].None?
  }

  function PresentCords(init: seq<Option<Block>>): set<Cell> {
    set i | 0 <= i < |init| && init[i].Some? :: init[i].value.cord
  }

  /** The `RuntimeException("initBlock was null")` of construction. */
  datatype StoreError = NullBlock

  /** `setBlocks(initBlocks)`: every element must be present; a later block
      with the same coordinate replaces an earlier one. */
  method SetBlocks(init: seq<Option<Block>>) returns (r: Result<Store, StoreError>)
    ensures r.Err? <==> HasNull(init)
    ensures r.Ok? ==> KeyedByCord(r.value)
    ensures r.Ok? ==> r.value.Keys == PresentCords(init)
    ensures r.Ok? ==> forall i :: 0 <= i < |init| && init[i].Some? && LastPresent(init, i) ==>
      r.value[init[i].value.cord] == init[i].value
  {
    var blocks: Store := map[];
    var seen: seq<Block> := [];
    for k := 0 to |init|
      invariant |seen| == k
      invariant forall i :: 0 <= i < k ==> init[i] == Some(seen[i])
      invariant blocks == PutAll(map[], seen)
    {
      if init[k].None? {
        assert HasNull(init);
        return Err(NullBlock);
      }
      PutAllAppend(map[], seen, init[k].value);
      seen := seen + [init[k].value];
      blocks := blocks[init[k].value.cord := init[k].value];
    }
    PresentBlocks(init, seen);
    assert !HasNull(init);
    r := Ok(blocks);
  }

  lemma PresentBlocks(init: seq<Option<Block>>, seen: seq<Block>)
    requires |seen| == |init|
    requires forall i :: 0 <= i < |init| ==> init[i] == Some(seen[i])
    ensures KeyedByCord(PutAll(map[], seen))
    ensures PutAll(map[], seen).Keys == PresentCords(init)
    ensures forall i :: 0 <= i < |init| && init[i].Some? && LastPresent(init, i) ==>
      PutAll(map[], seen)[init[i].value.cord] == init[i].value
  {
    PutAllFacts(map[], seen);
    assert CordsOf(seen) == PresentCords(init);
    forall i | 0 <= i < |init| && init[i].Some? && LastPresent(init, i)
      ensures PutAll(map[], seen)[init[i].value.cord] == init[i].value
    {
      assert LastWithCord(seen, i);
    }
  }

  lemma {:induction false} PutAllAppend(acc: Store, bs: seq<Block>, b: Block)
    ensures PutAll(acc, bs + [b]) == PutAll(acc, bs)[b.cord := b]
    decreases |bs|
  {
    if |bs| > 0 {
      assert (bs + [b])[1..] == bs[1..] + [b];
      PutAllAppend(acc[bs[0].cord := bs[0]], bs[1..], b);
    }
  }

  /** `checkCord`: whether a block occupies the cell; in a store keyed
      by coordinate, exactly when some stored block has that coordinate. */
  function CheckCord(m: Store, c: Cell): (r: bool)
    ensures KeyedByCord(m) ==> (r <==> exists b :: b in m.Values && b.cord == c)
  {
    c in m
  }

  // ---------------------------------------------------------------------
  // `checkNearest`: the 5x5x5 cells around a floating position.

  /** The cell `base + (dx, dy, dz)` with Java's wrapping `int` addition. */
  function Shift(base: Cell, dx: int, dy: int, dz: int): Cell {
    Cell(Wrap(base.x + dx), Wrap(base.y + dy), Wrap(base.z + dz))
  }

  /** The corner of the scanned box: each coordinate cast to `int`, minus 2. */
  function NearBase(p: Vec3): Cell {
    Cell(Wrap(IntCast(p.x) - 2), Wrap(IntCast(p.y) - 2), Wrap(IntCast(p.z) - 2))
  }

  /** The scanned cells, `dx` outermost and `dz` innermost. */
  function NearCells(base: Cell): (cs: seq<Cell>)
    ensures |cs| == 125
  {
    NearPrefix(base, 125)
  }

  /** Cell `k` of the scan: the offsets are the base-5 digits of `k`. */
  function NearCell(base: Cell, k: nat): Cell
    requires k < 125
  {
    Shift(base, k / 25, (k / 5) % 5, k % 5)
  }

  /** The first `n` cells of the scan. */
  function NearPrefix(base: Cell, n: nat): (cs: seq<Cell>)
    requires n <= 125
    ensures |cs| == n
  {
    if n == 0 then [] else NearPrefix(base, n - 1) + [NearCell(base, n - 1)]
  }

  lemma {:induction false} NearPrefixAt(base: Cell, n: nat, k: nat)
    requires k < n <= 125
    ensures NearPrefix(base, n)[k] == NearCell(base, k)
  {
    if k < n - 1 {
      NearPrefixAt(base, n - 1, k);
    }
  }

  /** The occupied cells of `cs`, in order. */
  function Occupied(m: Store, cs: seq<Cell>): seq<Cell>
  {
    if |cs| == 0 then []
    else Occupied(m, cs[..|cs| - 1]) + (if cs[|cs| - 1] in m then [cs[|cs| - 1]] else [])
  }

  /** The scan reports exactly the occupied cells among those it visits. */
  lemma {:induction false} OccupiedMembers(m: Store, cs: seq<Cell>)
    ensures forall c :: c in Occupied(m, cs) <==> c in cs && c in m
  {
    if |cs| > 0 {
      OccupiedMembers(m, cs[..|cs| - 1]);
      assert cs == cs[..|cs| - 1] + [cs[|cs| - 1]];
    }
  }

  /** `checkNearest`: the occupied cells of the 5x5x5 box whose corner is
      two cells below the truncated position, in scan order (the source
      prints each one). */
  method CheckNearest(m: Store, p: Vec3) returns (near: seq<Cell>)
    ensures near == Occupied(m, NearCells(NearBase(p)))
  {
    var base := NearBase(p);
    near := [];
    for dx := 0 to 5
      invariant near == Scanned(m, base, 25 * dx)
    {
      near := ScanPlane(m, base, dx, near);
    }
  }

  /** The `dy` and `dz` loops of `checkNearest` for one `dx`. */
  method ScanPlane(m: Store, base: Cell, dx: int, near0: seq<Cell>) returns (near: seq<Cell>)
    requires 0 <= dx < 5 && near0 == Scanned(m, base, 25 * dx)
    ensures near == Scanned(m, base, 25 * dx + 25)
  {
    near := near0;
    for dy := 0 to 5
      invariant near == Scanned(m, base, 25 * dx + 5 * dy)
    {
      near := ScanRow(m, base, dx, dy, near);
    }
  }

  /** The `dz` loop of `checkNearest` for one `dx` and `dy`: each cell
      is checked and reported when occupied. */
  method ScanRow(m: Store, base: Cell, dx: int, dy: int, near0: seq<Cell>) returns (near: seq<Cell>)
    requires 0 <= dx < 5 && 0 <= dy < 5 && near0 == Scanned(m, base, 25 * dx + 5 * dy)
    ensures near == Scanned(m, base, 25 * dx + 5 * dy + 5)
  {
    near := near0;
    for dz := 0 to 5
      invariant near == Scanned(m, base, 25 * dx + 5 * dy + dz)
    {
      var checked := Shift(base, dx, dy, dz);
      NearStep(m, base, dx, dy, dz);
      if CheckCord(m, checked) {
        near := near + [checked];
      }
    }
  }

  /** The report after the first `n` cells of the scan. */
  function Scanned(m: Store, base: Cell, n: nat): seq<Cell>
    requires n <= 125
  {
    Occupied(m, NearPrefix(base, n))
  }

  /** One cell of the scan: it is the next of `NearCells`, and it joins
      the report exactly when it is occupied. */
  lemma NearStep(m: Store, base: Cell, dx: int, dy: int, dz: int)
    requires 0 <= dx < 5 && 0 <= dy < 5 && 0 <= dz < 5
    ensures var k, c := 25 * dx + 5 * dy + dz, Shift(base, dx, dy, dz);
      && k < 125
      && Scanned(m, base, k + 1) == Scanned(m, base, k) + (if c in m then [c] else [])
  {
    var k := 25 * dx + 5 * dy + dz;
    NearIndex(dx, dy, dz);
    assert NearCell(base, k) == Shift(base, dx, dy, dz);
    var cs := NearPrefix(base, k + 1);
    assert cs[..|cs| - 1] == NearPrefix(base, k);
  }

  /** Position `k` of the scan is the offset whose base-5 digits are `k`. */
  lemma NearIndex(dx: int, dy: int, dz: int)
    requires 0 <= dx < 5 && 0 <= dy < 5 && 0 <= dz < 5
    ensures var k := 25 * dx + 5 * dy + dz;
      0 <= k < 125 && k / 25 == dx && (k / 5) % 5 == dy && k % 5 == dz
  {
    var k := 25 * dx + 5 * dy + dz;
    assert k / 5 == 5 * dx + dy;
    assert k % 5 == dz;
    assert (5 * dx + dy) % 5 == dy;
    assert (5 * dx + dy) / 5 == dx;
    assert k / 25 == (k / 5) / 5;
  }

  /** Away from the ends of the `int` range the scan covers exactly the
      cells within two of the truncated position on every axis. */
  lemma NearCellsBox(p: Vec3, c: Cell)
    requires MinInt + 2 <= Trunc(p.x) <= MaxInt - 2
    requires MinInt + 2 <= Trunc(p.y) <= MaxInt - 2
    requires MinInt + 2 <= Trunc(p.z) <= MaxInt - 2
    ensures c in NearCells(NearBase(p)) <==>
      (-2 <= c.x - Trunc(p.x) <= 2 && -2 <= c.y - Trunc(p.y) <= 2 && -2 <= c.z - Trunc(p.z) <= 2)
  {
    var base := NearBase(p);
    var cells := NearCells(base);
    if -2 <= c.x - Trunc(p.x) <= 2 && -2 <= c.y - Trunc(p.y) <= 2 && -2 <= c.z - Trunc(p.z) <= 2 {
      var dx, dy, dz := c.x - base.x, c.y - base.y, c.z - base.z;
      NearIndex(dx, dy, dz);
      NearPrefixAt(base, 125, 25 * dx + 5 * dy + dz);
      assert cells[25 * dx + 5 * dy + dz] == c;
    }
    if c in cells {
      var k :| 0 <= k < 125 && cells[k] == c;
      NearPrefixAt(base, 125, k);
      assert c == Shift(base, k / 25, (k / 5) % 5, k % 5);
    }
  }

  // ---------------------------------------------------------------------
  // `generateRndBlocks`

  /** The values one loop iteration draws from `Random.nextInt`: three
      coordinates, then six side ids. */
  datatype Draw = Draw(x: int32, y: int32, z: int32, sides: seq<int32>)

  /** What `nextInt(cordBound)` and `nextInt(6)` can return. */
  predicate ValidDraw(d: Draw, cordBound: int) {
    && 0 <= d.x < cordBound && 0 <= d.y < cordBound && 0 <= d.z < cordBound
    && |d.sides| == FaceCount
    && forall s :: s in d.sides ==> 0 <= s < 6
  }

  /** The `IllegalArgumentException` of `nextInt` with a bound below 1. */
  datatype GenerateError = BoundNotPositive

  /** The cell a draw picks. */
  function DrawCell(d: Draw): Cell {
    Cell(d.x, d.y, d.z)
  }

  /** No later draw picks the same cell as `draws[i]`. */
  predicate LastDraw(draws: seq<Draw>, i: nat)
    requires i < |draws|
  {
    forall j :: i < j < |draws| ==> DrawCell(draws[j]) != DrawCell(draws[i])
  }

  function DrawnBlock(d: Draw, cordBound: int32): Block
    requires ValidDraw(d, cordBound)
  {
    Block(Cell(d.x, d.y, d.z), 0, d.sides, AllVisible)
  }

  function DrawnBlocks(draws: seq<Draw>, cordBound: int32): (bs: seq<Block>)
    requires forall d :: d in draws ==> ValidDraw(d, cordBound)
    ensures |bs| == |draws|
    ensures forall i :: 0 <= i < |draws| ==> bs[i] == DrawnBlock(draws[i], cordBound)
  {
    seq(|draws|, i requires 0 <= i < |draws| => DrawnBlock(draws[i], cordBound))
  }

  /** `generateRndBlocks(count, cordBound)`, with the random values given as
      `draws`: the result is the map of drawn blocks, a later draw of the
      same cell replacing an earlier one (the source returns its values in
      unspecified order). */
  function GenerateRndBlocks(count: int32, cordBound: int32, draws: seq<Draw>): (r: Result<Store, GenerateError>)
    requires |draws| == (if 0 < count && 0 < cordBound then count as int else 0)
    requires forall d :: d in draws ==> ValidDraw(d, cordBound)
    ensures r.Err? <==> 0 < count && cordBound <= 0
    ensures r.Ok? ==> KeyedByCord(r.value) && |r.value| <= |draws|
    ensures r.Ok? ==> forall c :: c in r.value ==>
      && 0 <= c.x < cordBound && 0 <= c.y < cordBound && 0 <= c.z < cordBound
      && r.value[c].id == 0 && r.value[c].sideRender == AllVisible
      && |r.value[c].sideIds| == FaceCount
      && forall s :: s in r.value[c].sideIds ==> 0 <= s < 6
    ensures r.Ok? ==> forall i :: 0 <= i < |draws| ==> DrawCell(draws[i]) in r.value
    ensures r.Ok? ==> forall c :: c in r.value ==> exists i :: 0 <= i < |draws| && DrawCell(draws[i]) == c
    ensures r.Ok? ==> forall i :: 0 <= i < |draws| && LastDraw(draws, i) ==>
      r.value[DrawCell(draws[i])] == DrawnBlock(draws[i], cordBound)
  {
    if 0 < count && cordBound <= 0 then Err(BoundNotPositive)
    else
      var bs := DrawnBlocks(draws, cordBound);
      DrawnStore(bs, draws, cordBound);
      DrawnCells(bs, draws, cordBound);
      Ok(PutAll(map[], bs))
  }

  /** The generated map holds exactly the drawn cells, each with the block
      of the last draw that picked it. */
  lemma DrawnCells(bs: seq<Block>, draws: seq<Draw>, cordBound: int32)
    requires forall d :: d in draws ==> ValidDraw(d, cordBound)
    requires bs == DrawnBlocks(draws, cordBound)
    ensures forall i :: 0 <= i < |draws| ==> DrawCell(draws[i]) in PutAll(map[], bs)
    ensures forall c :: c in PutAll(map[], bs) ==> exists i :: 0 <= i < |draws| && DrawCell(draws[i]) == c
    ensures forall i :: 0 <= i < |draws| && LastDraw(draws, i) ==>
      PutAll(map[], bs)[DrawCell(draws[i])] == DrawnBlock(draws[i], cordBound)
  {
    PutAllFacts(map[], bs);
    forall i | 0 <= i < |draws|
      ensures DrawCell(draws[i]) in PutAll(map[], bs)
    {
      assert bs[i].cord == DrawCell(draws[i]);
    }
    forall c | c in PutAll(map[], bs)
      ensures exists i :: 0 <= i < |draws| && DrawCell(draws[i]) == c
    {
      var i :| 0 <= i < |bs| && bs[i].cord == c;
      assert DrawCell(draws[i]) == c;
    }
    forall i | 0 <= i < |draws| && LastDraw(draws, i)
      ensures LastWithCord(bs, i)
    {
      forall j | i < j < |bs|
        ensures bs[j].cord != bs[i].cord
      {
        assert bs[j].cord == DrawCell(draws[j]);
      }
    }
  }

  lemma DrawnStore(bs: seq<Block>, draws: seq<Draw>, cordBound: int32)
    requires forall d :: d in draws ==> ValidDraw(d, cordBound)
    requires bs == DrawnBlocks(draws, cordBound)
    ensures var m := PutAll(map[], bs);
      && KeyedByCord(m) && |m| <= |draws|
      && (forall c :: c in m ==>
        && 0 <= c.x < cordBound && 0 <= c.y < cordBound && 0 <= c.z < cordBound
        && m[c].id == 0 && m[c].sideRender == AllVisible
        && |m[c].sideIds| == FaceCount
        && forall s :: s in m[c].sideIds ==> 0 <= s < 6)
      && forall i :: 0 <= i < |draws| ==> DrawCell(draws[i]) in m
  {
    var m := PutAll(map[], bs);
    PutAllFacts(map[], bs);
    CordsCardinality(bs);
    assert |m.Keys| <= |bs|;
    forall c | c in m
      ensures 0 <= c.x < cordBound && 0 <= c.y < cordBound && 0 <= c.z < cordBound
      ensures m[c].id == 0 && m[c].sideRender == AllVisible && |m[c].sideIds| == FaceCount
      ensures forall s :: s in m[c].sideIds ==> 0 <= s < 6
    {
      LastOccurrence(bs, c);
      var i :| 0 <= i < |bs| && bs[i].cord == c && LastWithCord(bs, i);
      assert draws[i] in draws;
    }
    forall i | 0 <= i < |draws|
      ensures DrawCell(draws[i]) in m
    {
      assert bs[i].cord == DrawCell(draws[i]);
    }
  }

  lemma LastOccurrence(bs: seq<Block>, c: Cell)
    requires c in CordsOf(bs)
    ensures exists i :: 0 <= i < |bs| && bs[i].cord == c && LastWithCord(bs, i)
    decreases |bs|
  {
    if bs[|bs| - 1].cord == c {
      assert LastWithCord(bs, |bs| - 1);
    } else {
      var front := bs[..|bs| - 1];
      var k :| 0 <= k < |bs| && bs[k].cord == c;
      assert front[k] == bs[k];
      LastOccurrence(front, c);
      var i :| 0 <= i < |front| && front[i].cord == c && LastWithCord(front, i);
      assert bs[i] == front[i];
      assert LastWithCord(bs, i);
    }
  }

  lemma {:induction false} CordsCardinality(bs: seq<Block>)
    ensures |CordsOf(bs)| <= |bs|
  {
    if |bs| > 0 {
      var front := bs[..|bs| - 1];
      CordsCardinality(front);
      CordsSnoc(bs);
    }
  }
}
