/** The goal layout of the board (`Fifteen.getTerminalState`): tiles numbered
    from 1 in row-major order with the blank 0 in the last cell, built once and
    cached in a static field. The field is an explicit input and output here. */
module TerminalState {
  import opened Wrappers
  import opened JavaInt

  /** The array exceptions the construction can throw. */
  datatype ArrayException =
    | NegativeArraySize(length: int)
    | IndexOutOfBounds(index: int, length: int)

  /** How many cells the nested row/column loop visits: none unless the side
      is positive. */
  function VisitedCells(sideSize: int): nat {
    if sideSize <= 0 then 0 else sideSize * sideSize
  }

  /** The array as the counting loop leaves it when it visits every cell:
      cell p holds the byte counter after p + 1 increments. */
  function CountedLayout(size: nat): (g: seq<Byte>)
    ensures |g| == size
  {
    seq(size, p => ToByte(p + 1))
  }

  /** Reference definition of the finished goal layout: counted cells where the
      loop reached, Java's zero default elsewhere, and the blank 0 last. */
  function GoalLayout(sideSize: int, size: nat): (g: seq<Byte>)
    ensures |g| == size
  {
    seq(size, p => if p == size - 1 then 0 else if p < VisitedCells(sideSize) then ToByte(p + 1) else 0)
  }

  /** Where tile v stands in the goal layout: the blank last, tile v at v - 1. */
  function GoalPosition(size: int, v: int): int {
    if v == 0 then size - 1 else v - 1
  }

  /** `getTerminalState(sideSize, size)` with the static field `terminateField`
      passed in as `cache` and returned as `cache'`. A non-null cache is
      returned as it is. Otherwise the field is allocated (and cached) before
      it is filled, so an exception thrown while filling it leaves the
      partly filled array cached. The cells are visited in the order
      0, 1, 2, ..., so with `size` a Java `int` the index `j + i * sideSize`
      reaches `size` and throws before it could overflow. */
  method GetTerminalState(cache: Option<seq<Byte>>, sideSize: int, size: int)
    returns (cache': Option<seq<Byte>>, r: Result<seq<Byte>, ArrayException>)
    requires IsInt(sideSize) && IsInt(size)
    ensures cache.Some? ==> cache' == cache && r == Success(cache.value)
    ensures cache.None? && size < 0 ==> cache' == None && r == Failure(NegativeArraySize(size))
    ensures cache.None? && 0 <= size < VisitedCells(sideSize) ==>
      cache' == Some(CountedLayout(size)) && r == Failure(IndexOutOfBounds(size, size))
    ensures cache.None? && size == 0 == VisitedCells(sideSize) ==>
      cache' == Some([]) && r == Failure(IndexOutOfBounds(-1, 0))
    ensures cache.None? && 0 < size && VisitedCells(sideSize) <= size ==>
      r == Success(GoalLayout(sideSize, size)) && cache' == Some(r.value)
  {
    if cache.Some? {
      return cache, Success(cache.value);
    }
    if size < 0 {
      return None, Failure(NegativeArraySize(size));
    }
    var field: seq<Byte> := seq(size, _ => 0);
    var k: Byte := 0;
    var written := 0;  // cells filled so far, i * sideSize + j
    var i := 0;
    while i < sideSize
      invariant 0 <= i && (i <= sideSize || i == 0)
      invariant written == i * sideSize <= size
      invariant |field| == size
      invariant k == ToByte(written)
      invariant forall p :: 0 <= p < size ==> field[p] == if p < written then ToByte(p + 1) else 0
    {
      var j := 0;
      while j < sideSize
        invariant 0 <= j <= sideSize
        invariant written == i * sideSize + j <= size
        invariant |field| == size
        invariant k == ToByte(written)
        invariant forall p :: 0 <= p < size ==> field[p] == if p < written then ToByte(p + 1) else 0
      {
        var index := j + i * sideSize;
        if index >= size {
          RowMajorIndexBound(sideSize, i, j);
          assert field == CountedLayout(size);
          return Some(field), Failure(IndexOutOfBounds(index, size));
        }
        ByteIncrement(written);
        k := ToByte(k as int + 1);
        field := field[index := k];
        written := written + 1;
        j := j + 1;
      }
      RowMajorNextRow(sideSize, i);
      i := i + 1;
    }
    assert VisitedCells(sideSize) == written;
    if size == 0 {
      assert field == [];
      return Some(field), Failure(IndexOutOfBounds(size - 1, size));
    }
    field := field[size - 1 := 0];
    assert field == GoalLayout(sideSize, size);
    return Some(field), Success(field);
  }

  /** A row-major index on a square board stays below the number of cells. */
  lemma RowMajorIndexBound(sideSize: int, i: int, j: int)
    requires 0 <= i < sideSize && 0 <= j < sideSize
    ensures j + i * sideSize < VisitedCells(sideSize)
  {
    assert i * sideSize <= (sideSize - 1) * sideSize;
  }

  /** The next row starts one side length further on. */
  lemma RowMajorNextRow(sideSize: int, i: int)
    ensures (i + 1) * sideSize == i * sideSize + sideSize
  {
  }

  /** With at most 128 cells the counter never wraps, and the goal layout of a
      square board is a permutation of 0 .. size - 1 with the blank only in
      the last cell; `GoalPosition` is its inverse. */
  lemma GoalLayoutIsPermutation(sideSize: int)
    requires 1 <= sideSize && sideSize * sideSize <= 128
    ensures var size := sideSize * sideSize;
            var g := GoalLayout(sideSize, size);
            && (forall p :: 0 <= p < size ==> 0 <= g[p] as int < size)
            && (forall p, q :: 0 <= p < q < size ==> g[p] != g[q])
            && (forall p :: 0 <= p < size ==> (g[p] == 0 <==> p == size - 1))
            && (forall v :: 0 <= v < size ==> g[GoalPosition(size, v)] as int == v)
  {
    var size := sideSize * sideSize;
    var g := GoalLayout(sideSize, size);
    assert forall p :: 0 <= p < size - 1 ==> g[p] as int == p + 1;
  }

  /** Past 128 cells the byte counter wraps: on a board of side 12 or more the
      cell at index 127 holds -128, so the layout is no longer a permutation of
      0 .. size - 1. */
  lemma GoalLayoutWraps(sideSize: int)
    requires sideSize >= 1 && sideSize * sideSize > 128
    ensures GoalLayout(sideSize, sideSize * sideSize)[127] == -128
  {
  }
}
