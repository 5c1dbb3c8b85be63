/** `engine.Block`: a unit cube at an integer grid cell, with a block id,
    one texture id per face and one visibility flag per face, and its
    one-line text form used by the save file. */
module Blocks {
  import opened Wrappers
  import opened JavaInts
  import opened JavaText

  /** A `Vector3i` used as a grid coordinate and as the store's key. */
  datatype Cell = Cell(x: int32, y: int32, z: int32)

  /** Faces are ordered near (+z), up, down, far (-z), left, right. */
  const FaceCount: nat := 6

  /** The visibility flags every constructed block starts with. */
  const AllVisible: seq<bool> := [true, true, true, true, true, true]

  /** `sideIds` and `sideRender` are Java arrays; the model treats them as
      values (nothing in the engine writes to either after construction). */
  datatype Block = Block(cord: Cell, id: int32, sideIds: seq<int32>, sideRender: seq<bool>)

  predicate WellFormed(b: Block) {
    |b.sideIds| == FaceCount && |b.sideRender| == FaceCount
  }

  /** The `IllegalArgumentException` of the constructor. */
  datatype BlockError = SideIdsNotSix

  /** `new Block(cord, id, sideIds)`. */
  function NewBlock(cord: Cell, id: int32, sideIds: seq<int32>): (r: Result<Block, BlockError>)
    ensures r.Err? <==> |sideIds| != FaceCount
    ensures r.Ok? ==> r.value.cord == cord && r.value.id == id && r.value.sideIds == sideIds
    ensures r.Ok? ==> WellFormed(r.value)
    ensures r.Ok? ==> forall f :: 0 <= f < FaceCount ==> r.value.sideRender[f]
  {
    if |sideIds| != FaceCount then Err(SideIdsNotSix)
    else Ok(Block(cord, id, sideIds, AllVisible))
  }

  /** The decimal text of each element. */
  function IntStrings(xs: seq<int32>): (r: seq<string>)
    ensures |r| == |xs|
    ensures forall i :: 0 <= i < |xs| ==> r[i] == IntToString(xs[i])
  {
    seq(|xs|, i requires 0 <= i < |xs| => IntToString(xs[i]))
  }

  /** `Arrays.toString(int[])`. */
  function ArrayToString(xs: seq<int32>): string {
    "[" + Join(IntStrings(xs), ", ") + "]"
  }

  /** `Block.toString()`, one line of the save file. */
  function ToLine(b: Block): (line: string)
    ensures NoTerminator(line)
  {
    var line := "Block: cord=[\t" + IntToString(b.cord.x) + "\t" + IntToString(b.cord.y)
      + "\t" + IntToString(b.cord.z) + "\t],\tid=" + IntToString(b.id)
      + ",\tsideIds=" + ArrayToString(b.sideIds);
    ToLineNoTerminator(b, line);
    line
  }

  lemma ToLineNoTerminator(b: Block, line: string)
    requires line == "Block: cord=[\t" + IntToString(b.cord.x) + "\t" + IntToString(b.cord.y)
      + "\t" + IntToString(b.cord.z) + "\t],\tid=" + IntToString(b.id)
      + ",\tsideIds=" + ArrayToString(b.sideIds)
    ensures NoTerminator(line)
  {
    var parts := IntStrings(b.sideIds);
    forall i | 0 <= i < |parts|
      ensures NoTerminator(parts[i])
    {
      IntStringNoTerminator(b.sideIds[i]);
    }
    JoinNoTerminator(parts, ", ");
    IntStringNoTerminator(b.cord.x);
    IntStringNoTerminator(b.cord.y);
    IntStringNoTerminator(b.cord.z);
    IntStringNoTerminator(b.id);
    LayoutNoTerminator(IntToString(b.cord.x), IntToString(b.cord.y), IntToString(b.cord.z),
      IntToString(b.id), Join(parts, ", "));
  }

  lemma LayoutNoTerminator(x: string, y: string, z: string, id: string, sides: string)
    requires NoTerminator(x) && NoTerminator(y) && NoTerminator(z)
    requires NoTerminator(id) && NoTerminator(sides)
    ensures NoTerminator("Block: cord=[\t" + x + "\t" + y + "\t" + z + "\t],\tid=" + id
      + ",\tsideIds=" + ("[" + sides + "]"))
  {
  }

  lemma IntStringNoTerminator(x: int)
    ensures NoTerminator(IntToString(x))
  {
    var s := IntToString(x);
    forall c | c in s
      ensures !IsLineTerminator(c)
    {
      var i :| 0 <= i < |s| && s[i] == c;
    }
  }
}
