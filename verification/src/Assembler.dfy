/** Bounded reassembly of an object from parts that arrive in any order, repeated or not. */
module Assembler {
  import opened Bytes

  datatype Status = Ok | Busy | InvalidState | InvalidArgument | Expired | Conflict

  // ---- What is held ----------------------------------------------------------------------------

  /** The bytes so far, and which of them have arrived. A deadline of 0 is none. */
  datatype View = View(total: nat, cell: nat, deadline: nat, bytes: Octets, present: seq<bool>)

  ghost predicate ViewOk(v: View) {
    |v.bytes| == |v.present| == v.total && (v.total > 0 ==> v.cell > 0)
  }

  /** The quotient, by repeated subtraction. */
  function CellIndex(at: nat, cell: nat): nat
    requires cell > 0
    decreases at
  {
    if at < cell then 0 else 1 + CellIndex(at - cell, cell)
  }

  /** A multiple of the cell. */
  predicate Aligned(offset: nat, cell: nat)
    requires cell > 0
    decreases offset
  {
    offset == 0 || (offset >= cell && Aligned(offset - cell, cell))
  }

  /** Cells needed for a total. */
  function Cells(total: nat, cell: nat): nat
    requires cell > 0
    decreases total
  {
    if total == 0 then 0 else if total <= cell then 1 else 1 + Cells(total - cell, cell)
  }

  /** Multiplying keeps the order. */
  lemma TimesKeepsOrder(a: nat, b: nat, cell: nat)
    ensures a <= b ==> a * cell <= b * cell
  {
    assert b * cell == a * cell + (b - a) * cell;
  }

  /** A cell index is the quotient, and aligned offsets are those without a remainder. */
  lemma {:induction false} CellIndexIsQuotient(at: nat, cell: nat)
    requires cell > 0
    ensures CellIndex(at, cell) == at / cell
    ensures Aligned(at, cell) <==> at % cell == 0
    decreases at
  {
    if at >= cell {
      CellIndexIsQuotient(at - cell, cell);
      QuotientSteps(at, cell);
    }
  }

  lemma QuotientSteps(at: nat, cell: nat)
    requires 0 < cell <= at
    ensures at / cell == 1 + (at - cell) / cell && at % cell == (at - cell) % cell
  {
    var q, q' := at / cell, 1 + (at - cell) / cell;
    var rest, rest' := at % cell, (at - cell) % cell;
    assert at == q * cell + rest && at == q' * cell + rest';
    TimesKeepsOrder(q + 1, q', cell);
    TimesKeepsOrder(q' + 1, q, cell);
  }

  /** The number of cells is the quotient rounded up. */
  lemma {:induction false} CellsRoundUp(total: nat, cell: nat)
    requires cell > 0
    ensures Cells(total, cell) == (total + cell - 1) / cell
    decreases total
  {
    if total > cell {
      CellsRoundUp(total - cell, cell);
    }
    if total + cell - 1 >= cell {
      QuotientSteps(total + cell - 1, cell);
    }
  }

  /** Parts lie on the grid and fill their cell; a cell of 1 allows any range. */
  predicate OnGrid(total: nat, cell: nat, offset: nat, size: nat)
    requires cell > 0
  {
    && size > 0 && offset < total && size <= total - offset
    && (cell != 1 ==> Aligned(offset, cell) && size == if total - offset < cell then total - offset else cell)
  }

  ghost predicate Clashes(v: View, offset: nat, data: Octets)
    requires ViewOk(v) && offset + |data| <= v.total
  {
    exists i | 0 <= i < |data| :: ClashAt(v, offset, data, i)
  }

  ghost predicate ClashAt(v: View, offset: nat, data: Octets, i: nat)
    requires ViewOk(v) && offset + |data| <= v.total && i < |data|
  {
    v.present[offset + i] && v.bytes[offset + i] != data[i]
  }

  ghost function Verdict(v: View, offset: nat, data: Octets, now: nat): Status
    requires ViewOk(v)
  {
    if v.total == 0 then InvalidState
    else if v.deadline != 0 && now >= v.deadline then Expired
    else if !OnGrid(v.total, v.cell, offset, |data|) then InvalidArgument
    else if Clashes(v, offset, data) then Conflict
    else Ok
  }

  /** The bytes that had not arrived are filled in; a refused part changes nothing. */
  ghost function Inserted(v: View, offset: nat, data: Octets, now: nat): (r: View)
    requires ViewOk(v)
    ensures ViewOk(r)
  {
    if Verdict(v, offset, data, now) != Ok then v else Filled(v, offset, data)
  }

  ghost function Filled(v: View, offset: nat, data: Octets): (r: View)
    requires ViewOk(v) && offset + |data| <= v.total
    ensures ViewOk(r)
  {
    v.(bytes := seq(v.total, at requires 0 <= at < v.total =>
                      if offset <= at < offset + |data| && !v.present[at] then data[at - offset] else v.bytes[at]),
       present := seq(v.total, at requires 0 <= at < v.total => v.present[at] || offset <= at < offset + |data|))
  }

  function Count(s: seq<bool>): (n: nat)
    ensures n <= |s|
  {
    if s == [] then 0 else Count(s[..|s| - 1]) + if s[|s| - 1] then 1 else 0
  }

  predicate Complete(v: View) {
    v.total > 0 && Count(v.present) == v.total
  }

  lemma {:induction false} CountAll(s: seq<bool>)
    ensures Count(s) == |s| <==> forall i | 0 <= i < |s| :: s[i]
  {
    if s != [] {
      CountAll(s[..|s| - 1]);
      assert forall i | 0 <= i < |s| - 1 :: s[..|s| - 1][i] == s[i];
    }
  }

  // ---- One object ----------------------------------------------------------------------------------

  /** Everything that has arrived is from this object. */
  ghost predicate Agrees(v: View, whole: Octets) {
    ViewOk(v) && |whole| == v.total && forall at | 0 <= at < v.total && v.present[at] :: v.bytes[at] == whole[at]
  }

  /** A part of the object on the grid is accepted whatever came before, and only adds. */
  lemma PartAccepted(v: View, whole: Octets, offset: nat, size: nat, now: nat)
    requires Agrees(v, whole) && v.total > 0 && OnGrid(v.total, v.cell, offset, size)
    requires v.deadline == 0 || now < v.deadline
    ensures var part := whole[offset..offset + size];
            Verdict(v, offset, part, now) == Ok && Agrees(Inserted(v, offset, part, now), whole)
  {
    var part := whole[offset..offset + size];
    assert forall i | 0 <= i < |part| :: !ClashAt(v, offset, part, i);
    assert Verdict(v, offset, part, now) == Ok;
  }

  /** What is complete is the object. */
  lemma CompleteIsObject(v: View, whole: Octets)
    requires Agrees(v, whole) && Complete(v)
    ensures v.bytes == whole
  {
    CountAll(v.present);
  }

  /** A part that disagrees with bytes that have arrived is refused and changes nothing. */
  lemma ConflictRefused(v: View, whole: Octets, offset: nat, data: Octets, now: nat, i: nat)
    requires Agrees(v, whole) && i < |data| && offset + i < v.total
    requires v.present[offset + i] && data[i] != whole[offset + i]
    ensures Verdict(v, offset, data, now) != Ok && Inserted(v, offset, data, now) == v
  {
    assert offset + |data| <= v.total ==> ClashAt(v, offset, data, i);
  }

  // ---- The object of the firmware ----------------------------------------------------------------------

  lemma {:induction false} CellInside(at: nat, total: nat, cell: nat)
    requires cell > 0 && at < total
    ensures CellIndex(at, cell) < Cells(total, cell)
    decreases at
  {
    if at >= cell {
      CellInside(at - cell, total - cell, cell);
    }
  }

  /** Presence of each byte, from the bit of its cell. */
  ghost function PresentOf(bits: seq<bool>, total: nat, cell: nat): (r: seq<bool>)
    requires cell > 0 && |bits| >= Cells(total, cell)
    ensures |r| == total
  {
    seq(total, at requires 0 <= at < total => CellInside(at, total, cell); bits[CellIndex(at, cell)])
  }

  ghost function Covered(s: seq<bool>, a: nat, b: nat): (r: seq<bool>)
    ensures |r| == |s| && forall at | 0 <= at < |s| :: r[at] == (s[at] || a <= at < b)
  {
    seq(|s|, at requires 0 <= at < |s| => s[at] || a <= at < b)
  }

  lemma {:induction false} CountCovered(s: seq<bool>, a: nat, b: nat)
    requires a <= b <= |s| && forall at | a <= at < b :: !s[at]
    ensures Count(Covered(s, a, b)) == Count(s) + (b - a)
    decreases |s|
  {
    if a == b {
      assert Covered(s, a, b) == s;
    } else {
      var front := s[..|s| - 1];
      if b == |s| {
        CountCovered(front, a, b - 1);
        assert Covered(s, a, b)[..|s| - 1] == Covered(front, a, b - 1);
      } else {
        CountCovered(front, a, b);
        assert Covered(s, a, b)[..|s| - 1] == Covered(front, a, b);
      }
    }
  }

  /** A part on the grid is the positions of one cell. */
  lemma {:induction false} SameCell(at: nat, total: nat, cell: nat, offset: nat, size: nat)
    requires cell > 1 && OnGrid(total, cell, offset, size) && at < total
    ensures CellIndex(at, cell) == CellIndex(offset, cell) <==> offset <= at < offset + size
    decreases offset
  {
    if offset > 0 && at >= cell {
      SameCell(at - cell, total - cell, cell, offset - cell, size);
    }
  }

  /** With cells of one byte, bits and bytes have the same index. */
  lemma {:induction false} ByteCell(at: nat, total: nat)
    ensures CellIndex(at, 1) == at && Cells(total, 1) == total
    decreases at + total
  {
    if at > 0 {
      ByteCell(at - 1, total);
    } else if total > 0 {
      ByteCell(at, total - 1);
    }
  }

  lemma PresentAt(bits: seq<bool>, total: nat, cell: nat, at: nat)
    requires cell > 0 && |bits| >= Cells(total, cell) && at < total
    ensures CellIndex(at, cell) < |bits| && PresentOf(bits, total, cell)[at] == bits[CellIndex(at, cell)]
  {
    CellInside(at, total, cell);
  }

  lemma FlipCell(bits: seq<bool>, total: nat, cell: nat, offset: nat, size: nat)
    requires cell > 1 && OnGrid(total, cell, offset, size) && |bits| >= Cells(total, cell)
    ensures CellIndex(offset, cell) < |bits|
    ensures PresentOf(bits[CellIndex(offset, cell) := true], total, cell) == Covered(PresentOf(bits, total, cell), offset, offset + size)
    ensures forall at | offset <= at < offset + size :: PresentOf(bits, total, cell)[at] == bits[CellIndex(offset, cell)]
  {
    CellInside(offset, total, cell);
    var x, y := PresentOf(bits[CellIndex(offset, cell) := true], total, cell), PresentOf(bits, total, cell);
    forall at | 0 <= at < total
      ensures x[at] == (y[at] || offset <= at < offset + size) && (offset <= at < offset + size ==> y[at] == bits[CellIndex(offset, cell)])
    {
      FlipAt(bits, total, cell, offset, size, at);
    }
    assert x == Covered(y, offset, offset + size);
  }

  lemma FlipAt(bits: seq<bool>, total: nat, cell: nat, offset: nat, size: nat, at: nat)
    requires cell > 1 && OnGrid(total, cell, offset, size) && |bits| >= Cells(total, cell) && at < total && CellIndex(offset, cell) < |bits|
    ensures PresentOf(bits[CellIndex(offset, cell) := true], total, cell)[at] == (PresentOf(bits, total, cell)[at] || offset <= at < offset + size)
    ensures offset <= at < offset + size ==> PresentOf(bits, total, cell)[at] == bits[CellIndex(offset, cell)]
  {
    PresentAt(bits, total, cell, at);
    PresentAt(bits[CellIndex(offset, cell) := true], total, cell, at);
    SameCell(at, total, cell, offset, size);
  }

  ghost function Clear(n: nat): (r: seq<bool>)
  {
    seq(n, i => false)
  }

  lemma {:induction false} CountNone(s: seq<bool>)
    requires forall i | 0 <= i < |s| :: !s[i]
    ensures Count(s) == 0
  {
    if s != [] {
      CountNone(s[..|s| - 1]);
    }
  }

  lemma AllClear(bits: seq<bool>, total: nat, cell: nat)
    requires cell > 0 && |bits| >= Cells(total, cell) && forall k | 0 <= k < |bits| :: !bits[k]
    ensures PresentOf(bits, total, cell) == Clear(total) && Count(Clear(total)) == 0
  {
    CountNone(Clear(total));
    forall at | 0 <= at < total
      ensures !PresentOf(bits, total, cell)[at]
    {
      CellInside(at, total, cell);
    }
  }

  /** A range of which nothing had arrived. */
  lemma RangeFilled(v: View, offset: nat, data: Octets, bytes: Octets)
    requires ViewOk(v) && offset + |data| <= v.total && |bytes| == v.total
    requires forall at | offset <= at < offset + |data| :: !v.present[at]
    requires forall at | 0 <= at < v.total :: bytes[at] == if offset <= at < offset + |data| then data[at - offset] else v.bytes[at]
    ensures Filled(v, offset, data).present == Covered(v.present, offset, offset + |data|)
    ensures Filled(v, offset, data).bytes == bytes
    ensures Count(Filled(v, offset, data).present) == Count(v.present) + |data|
  {
    CountCovered(v.present, offset, offset + |data|);
    assert Filled(v, offset, data).present == Covered(v.present, offset, offset + |data|);
  }

  /** A whole cell that had not arrived. */
  lemma CellFilled(v: View, offset: nat, data: Octets, bits: seq<bool>, bytes: Octets)
    requires ViewOk(v) && v.cell > 1 && OnGrid(v.total, v.cell, offset, |data|) && |bits| >= Cells(v.total, v.cell)
    requires v.present == PresentOf(bits, v.total, v.cell)
    requires CellIndex(offset, v.cell) < |bits| && !bits[CellIndex(offset, v.cell)] && |bytes| == v.total
    requires forall at | 0 <= at < v.total :: bytes[at] == if offset <= at < offset + |data| then data[at - offset] else v.bytes[at]
    ensures Filled(v, offset, data).present == PresentOf(bits[CellIndex(offset, v.cell) := true], v.total, v.cell)
    ensures Filled(v, offset, data).bytes == bytes
    ensures Count(Filled(v, offset, data).present) == Count(v.present) + |data|
  {
    FlipCell(bits, v.total, v.cell, offset, |data|);
    RangeFilled(v, offset, data, bytes);
  }

  /** A whole cell that had arrived, unless it clashes. */
  lemma CellRepeated(v: View, offset: nat, data: Octets, bits: seq<bool>)
    requires ViewOk(v) && v.cell > 1 && OnGrid(v.total, v.cell, offset, |data|) && |bits| >= Cells(v.total, v.cell)
    requires v.present == PresentOf(bits, v.total, v.cell) && CellIndex(offset, v.cell) < |bits| && bits[CellIndex(offset, v.cell)]
    ensures Filled(v, offset, data) == v
  {
    FlipCell(bits, v.total, v.cell, offset, |data|);
    assert Filled(v, offset, data).present == v.present;
    assert Filled(v, offset, data).bytes == v.bytes;
  }

  /** One byte placed, unless it had arrived. */
  ghost function WithByte(v: View, at: nat, b: Byte): (r: View)
    requires ViewOk(v) && at < v.total
    ensures ViewOk(r)
  {
    if v.present[at] then v else v.(bytes := v.bytes[at := b], present := v.present[at := true])
  }

  lemma CountWith(v: View, at: nat, b: Byte)
    requires ViewOk(v) && at < v.total
    ensures Count(WithByte(v, at, b).present) == Count(v.present) + (if v.present[at] then 0 else 1)
  {
    if !v.present[at] {
      CountCovered(v.present, at, at + 1);
      assert Covered(v.present, at, at + 1) == v.present[at := true];
    }
  }

  /** A part placed byte by byte. */
  lemma ByteFilled(v: View, offset: nat, data: Octets, i: nat)
    requires ViewOk(v) && offset + |data| <= v.total && i < |data|
    ensures Filled(v, offset, data[..i + 1]) == WithByte(Filled(v, offset, data[..i]), offset + i, data[i])
  {
    var was, now := Filled(v, offset, data[..i]), Filled(v, offset, data[..i + 1]);
    var next := WithByte(was, offset + i, data[i]);
    assert now.present == next.present && now.bytes == next.bytes;
  }

  class ObjectAssembler {
    var storage: array<Byte>
    var bitmap: array<bool>     // one bit for each cell
    var total: nat
    var cell: nat
    var received: nat
    var deadline: nat

    ghost predicate Shaped()
      reads this
    {
      total > 0 ==> cell > 0 && storage.Length >= total && bitmap.Length >= Cells(total, cell)
    }

    ghost function Now(): (v: View)
      requires Shaped()
      reads this, storage, bitmap
      ensures ViewOk(v)
    {
      if total == 0 then View(0, cell, deadline, [], [])
      else View(total, cell, deadline, storage[..total], PresentOf(bitmap[..], total, cell))
    }

    ghost predicate Valid()
      reads this, storage, bitmap
    {
      Shaped() && received == Count(Now().present)
    }

    constructor (storage: array<Byte>, bitmap: array<bool>)
      ensures Valid() && total == 0 && this.storage == storage && this.bitmap == bitmap
    {
      this.storage, this.bitmap := storage, bitmap;
      total, cell, received, deadline := 0, 0, 0, 0;
    }

    method Begin(buffer: array<Byte>, bits: array<bool>, size: nat, grid: nat, until: nat) returns (r: Status)
      requires Valid()
      modifies this, bits
      ensures Valid()
      ensures old(total) > 0 ==> r == Busy && Now() == old(Now())
      ensures old(total) == 0 ==>
              (r == Ok <==> size > 0 && grid > 0 && buffer.Length >= size && bits.Length >= Cells(size, grid))
      ensures r != Ok ==> unchanged(this) && unchanged(bits) && r == if total > 0 then Busy else InvalidArgument
      ensures r == Ok ==> storage == buffer && bitmap == bits && received == 0
                          && Now() == View(size, grid, until, buffer[..size], Clear(size))
    {
      if total > 0 {
        return Busy;
      }
      if size == 0 || grid == 0 || buffer.Length < size || bits.Length < Cells(size, grid) {
        return InvalidArgument;
      }
      storage, bitmap, total, cell, received, deadline := buffer, bits, size, grid, 0, until;
      forall k | 0 <= k < bits.Length {
        bits[k] := false;
      }
      AllClear(bits[..], size, grid);
      r := Ok;
    }

    method IsComplete() returns (b: bool)
      requires Valid()
      ensures b == Complete(Now())
    {
      b := total != 0 && received == total;
    }

    /** A byte that has arrived and is not b. */
    method Differs(at: nat, b: Byte) returns (d: bool)
      requires Valid() && total > 0 && at < total
      ensures d == (Now().present[at] && Now().bytes[at] != b)
    {
      PresentAt(bitmap[..], total, cell, at);
      d := bitmap[CellIndex(at, cell)] && storage[at] != b;
    }

    /** The check before anything is changed. */
    method FindClash(offset: nat, data: Octets) returns (clash: bool)
      requires Valid() && total > 0 && offset + |data| <= total
      ensures clash == Clashes(Now(), offset, data)
    {
      for i := 0 to |data|
        invariant forall j | 0 <= j < i :: !ClashAt(Now(), offset, data, j)
      {
        var d := Differs(offset + i, data[i]);
        if d {
          assert ClashAt(Now(), offset, data, i);
          return true;
        }
      }
      clash := false;
    }

    method Insert(offset: nat, data: Octets, now: nat) returns (r: Status)
      requires Valid()
      modifies this, storage, bitmap
      ensures Valid() && storage == old(storage) && bitmap == old(bitmap)
      ensures r == Verdict(old(Now()), offset, data, now) && Now() == Inserted(old(Now()), offset, data, now)
    {
      if total == 0 {
        return InvalidState;
      }
      if deadline != 0 && now >= deadline {
        return Expired;
      }
      if !OnGrid(total, cell, offset, |data|) {
        return InvalidArgument;
      }
      var clash := FindClash(offset, data);
      if clash {
        return Conflict;
      }
      if cell != 1 {
        InsertCell(offset, data);
      } else {
        InsertBytes(offset, data);
      }
      r := Ok;
    }

    method InsertCell(offset: nat, data: Octets)
      requires Valid() && total > 0 && cell > 1 && OnGrid(total, cell, offset, |data|)
      modifies this`received, storage, bitmap
      ensures Valid() && Now() == Filled(old(Now()), offset, data)
    {
      CellInside(offset, total, cell);
      ghost var v, bits := Now(), bitmap[..];
      if !bitmap[CellIndex(offset, cell)] {
        forall i | 0 <= i < |data| {
          storage[offset + i] := data[i];
        }
        bitmap[CellIndex(offset, cell)] := true;
        received := received + |data|;
        CellFilled(v, offset, data, bits, storage[..total]);
        assert bitmap[..] == bits[CellIndex(offset, cell) := true];
      } else {
        CellRepeated(v, offset, data, bits);
      }
    }

    method InsertBytes(offset: nat, data: Octets)
      requires Valid() && total > 0 && cell == 1 && offset + |data| <= total
      modifies this`received, storage, bitmap
      ensures Valid() && Now() == Filled(old(Now()), offset, data)
    {
      ghost var v := Now();
      for i := 0 to |data|
        invariant Valid() && Now() == Filled(v, offset, data[..i])
      {
        ByteFilled(v, offset, data, i);
        InsertByte(offset + i, data[i]);
      }
      assert data[..|data|] == data;
    }

    method InsertByte(at: nat, b: Byte)
      requires Valid() && total > 0 && cell == 1 && at < total
      modifies this`received, storage, bitmap
      ensures Valid() && Now() == WithByte(old(Now()), at, b)
    {
      ByteCell(at, total);
      PresentAt(bitmap[..], total, cell, at);
      ghost var v := Now();
      CountWith(v, at, b);
      if !bitmap[at] {
        storage[at] := b;
        bitmap[at] := true;
        received := received + 1;
        forall k | 0 <= k < total
          ensures Now().present[k] == v.present[at := true][k]
        {
          ByteCell(k, total);
          PresentAt(bitmap[..], total, cell, k);
        }
        assert Now().present == v.present[at := true];
      }
    }
  }

}
