/** Which variables of a stack frame a bad access is attributed to. */
module StackFrames {
  import opened Words

  datatype Var = Var(beg: u64, size: u64)

  datatype Position = Unmarked | Inside | PartiallyOverflows | Overflows | PartiallyUnderflows | Underflows

  const TOP: nat := WORD - 1

  /** The position choice of `PrintAccessAndVarIntersection`. */
  function PositionOf(v: Var, addr: u64, size: u64, prevEnd: u64, nextBeg: u64): Position {
    var varEnd, addrEnd := Wrap(v.beg + v.size), Wrap(addr + size);
    if addr >= v.beg then
      if addrEnd <= varEnd then Inside
      else if addr < varEnd then PartiallyOverflows
      else if addrEnd <= nextBeg && nextBeg - addrEnd >= addr - varEnd then Overflows
      else Unmarked
    else
      if addrEnd > v.beg then PartiallyUnderflows
      else if addr >= prevEnd && addr - prevEnd >= v.beg - addrEnd then Underflows
      else Unmarked
  }

  function PrevEnd(vars: seq<Var>, i: nat): u64
    requires i < |vars|
  {
    if i > 0 then Wrap(vars[i - 1].beg + vars[i - 1].size) else 0
  }

  function NextBeg(vars: seq<Var>, i: nat): u64
    requires i < |vars|
  {
    if i + 1 < |vars| then vars[i + 1].beg else TOP
  }

  function MarkOf(vars: seq<Var>, i: nat, addr: u64, size: u64): Position
    requires i < |vars|
  {
    PositionOf(vars[i], addr, size, PrevEnd(vars, i), NextBeg(vars, i))
  }

  /** The loop of `StackAddressDescription::Print` over the variables of the frame. */
  method MarkVariables(vars: seq<Var>, addr: u64, size: u64) returns (marks: seq<Position>)
    ensures |marks| == |vars|
    ensures forall i :: 0 <= i < |vars| ==> marks[i] == MarkOf(vars, i, addr, size)
    ensures Sorted(vars) && addr + size <= TOP ==>
              && (forall i :: 0 <= i < |vars| ==> Describes(marks[i], vars, i, addr, addr + size))
              && (forall i :: 0 <= i < |vars| && marks[i] != Unmarked ==> Nearest(vars, i, addr, addr + size))
              && ((exists i :: 0 <= i < |vars| && marks[i] != Unmarked)
                  <==> |vars| > 0 && !NearerToBase(vars, addr, addr + size) && !NearerToTop(vars, addr, addr + size))
  {
    marks := [];
    for i := 0 to |vars|
      invariant |marks| == i
      invariant forall k :: 0 <= k < i ==> marks[k] == MarkOf(vars, k, addr, size)
    {
      var prevEnd := if i > 0 then Wrap(vars[i - 1].beg + vars[i - 1].size) else 0;
      var nextBeg := if i + 1 < |vars| then vars[i + 1].beg else TOP;
      marks := marks + [PositionOf(vars[i], addr, size, prevEnd, nextBeg)];
    }
    if Sorted(vars) && addr + size <= TOP {
      AllMarks(vars, marks, addr, size);
    }
  }

  lemma AllMarks(vars: seq<Var>, marks: seq<Position>, addr: u64, size: u64)
    requires Sorted(vars) && addr + size <= TOP
    requires |marks| == |vars| && forall i :: 0 <= i < |vars| ==> marks[i] == MarkOf(vars, i, addr, size)
    ensures forall i :: 0 <= i < |vars| ==> Describes(marks[i], vars, i, addr, addr + size)
    ensures forall i :: 0 <= i < |vars| && marks[i] != Unmarked ==> Nearest(vars, i, addr, addr + size)
    ensures (exists i :: 0 <= i < |vars| && marks[i] != Unmarked)
            <==> |vars| > 0 && !NearerToBase(vars, addr, addr + size) && !NearerToTop(vars, addr, addr + size)
  {
    forall i | 0 <= i < |vars|
      ensures Describes(marks[i], vars, i, addr, addr + size)
      ensures marks[i] != Unmarked ==> Nearest(vars, i, addr, addr + size)
    {
      MarkDescribes(vars, i, addr, size);
      if marks[i] != Unmarked {
        MarkedIsNearest(vars, i, addr, size);
      }
    }
    MarkedIff(vars, addr, size);
    assert forall i :: 0 <= i < |vars| ==> (marks[i] != Unmarked <==> Marked(vars, i, addr, size));
  }

  // ------------------------------------------------------------------ reference

  function VarEnd(v: Var): nat {
    v.beg + v.size
  }

  /** Variables in increasing order, without overlap, none reaching the top of the address space. */
  ghost predicate Sorted(vars: seq<Var>) {
    && (forall i :: 0 <= i < |vars| ==> VarEnd(vars[i]) < WORD)
    && (forall i, j :: 0 <= i < j < |vars| ==> VarEnd(vars[i]) <= vars[j].beg)
  }

  /** How many bytes lie between the access [addr, end) and the variable. */
  function Distance(v: Var, addr: nat, end: nat): nat
    requires addr <= end
  {
    if end <= v.beg then v.beg - end
    else if VarEnd(v) <= addr then addr - VarEnd(v)
    else 0
  }

  ghost predicate Nearest(vars: seq<Var>, i: nat, addr: nat, end: nat)
    requires i < |vars| && addr <= end
  {
    forall j :: 0 <= j < |vars| ==> Distance(vars[i], addr, end) <= Distance(vars[j], addr, end)
  }

  /** Where the variables on both sides end and begin, with the frame base and the top of the address space as the last ones. */
  function LeftEnd(vars: seq<Var>, i: nat): nat
    requires i < |vars|
  {
    if i > 0 then VarEnd(vars[i - 1]) else 0
  }

  function RightBeg(vars: seq<Var>, i: nat): nat
    requires i < |vars|
  {
    if i + 1 < |vars| then vars[i + 1].beg else 0xFFFF_FFFF_FFFF_FFFF
  }

  /**
   What each mark says of the access [addr, end) and variable i: inside it, across its end or its
   beginning, behind it and no nearer to what follows, or before it and no nearer to what precedes.
   */
  ghost predicate Describes(mark: Position, vars: seq<Var>, i: nat, addr: nat, end: nat)
    requires i < |vars|
  {
    var v, left, right := vars[i], LeftEnd(vars, i), RightBeg(vars, i);
    && (mark == Inside <==> v.beg <= addr && end <= VarEnd(v))
    && (mark == PartiallyOverflows <==> v.beg <= addr < VarEnd(v) < end)
    && (mark == PartiallyUnderflows <==> addr < v.beg < end)
    && (mark == Overflows <==> VarEnd(v) <= addr && VarEnd(v) < end && end <= right && addr - VarEnd(v) <= right - end)
    && (mark == Underflows <==> addr < v.beg && end <= v.beg && left <= addr && v.beg - end <= addr - left)
  }

  lemma MarkDescribes(vars: seq<Var>, i: nat, addr: u64, size: u64)
    requires Sorted(vars) && addr + size <= TOP && i < |vars|
    ensures Describes(MarkOf(vars, i, addr, size), vars, i, addr, addr + size)
  {
    assert VarEnd(vars[i]) < WORD && (i > 0 ==> VarEnd(vars[i - 1]) < WORD);
  }

  ghost predicate Marked(vars: seq<Var>, i: nat, addr: u64, size: u64) {
    i < |vars| && MarkOf(vars, i, addr, size) != Unmarked
  }

  /** The access ends before the first variable and is strictly nearer to the frame base. */
  predicate NearerToBase(vars: seq<Var>, addr: nat, end: nat)
    requires |vars| > 0
  {
    addr < vars[0].beg && end <= vars[0].beg && addr < vars[0].beg - end
  }

  /** The access lies after the last variable and is strictly nearer to the top of the address space. */
  predicate NearerToTop(vars: seq<Var>, addr: nat, end: nat)
    requires |vars| > 0
  {
    var last := vars[|vars| - 1];
    last.beg <= addr && VarEnd(last) <= addr && VarEnd(last) < end && TOP - end < addr - VarEnd(last)
  }

  /** Every variable that is marked, in whatever way, is at minimal distance from the access. */
  lemma MarkedIsNearest(vars: seq<Var>, i: nat, addr: u64, size: u64)
    requires Sorted(vars) && addr + size <= TOP && Marked(vars, i, addr, size)
    ensures Nearest(vars, i, addr, addr + size)
  {
    forall j | 0 <= j < |vars|
      ensures Distance(vars[i], addr, addr + size) <= Distance(vars[j], addr, addr + size)
    {
      if j < i {
        assert VarEnd(vars[j]) <= PrevEnd(vars, i) <= vars[i].beg;
      } else if i < j {
        assert VarEnd(vars[i]) <= NextBeg(vars, i) <= vars[j].beg;
      }
    }
  }

  /** The last variable that starts at or before the address. */
  lemma {:induction false} LastStart(vars: seq<Var>, addr: nat, n: nat) returns (i: nat)
    requires 0 < n <= |vars| && vars[0].beg <= addr
    ensures i < n && vars[i].beg <= addr && forall k :: i < k < n ==> addr < vars[k].beg
  {
    if vars[n - 1].beg <= addr {
      i := n - 1;
    } else {
      i := LastStart(vars, addr, n - 1);
    }
  }

  lemma MarkedWhenBefore(vars: seq<Var>, addr: u64, size: u64)
    requires Sorted(vars) && addr + size <= TOP && |vars| > 0 && addr < vars[0].beg
    ensures (exists i: nat :: Marked(vars, i, addr, size)) <==> !NearerToBase(vars, addr, addr + size)
  {
    if !NearerToBase(vars, addr, addr + size) {
      assert Marked(vars, 0, addr, size);
    } else {
      forall i: nat | i < |vars|
        ensures !Marked(vars, i, addr, size)
      {
        assert i > 0 ==> VarEnd(vars[0]) <= vars[i].beg && vars[0].beg <= VarEnd(vars[i - 1]) == PrevEnd(vars, i);
      }
    }
  }

  lemma MarkedAfterStart(vars: seq<Var>, addr: u64, size: u64, i: nat)
    requires Sorted(vars) && addr + size <= TOP && i < |vars| && vars[i].beg <= addr
    requires forall k :: i < k < |vars| ==> addr < vars[k].beg
    ensures (exists k: nat :: Marked(vars, k, addr, size)) <==> !NearerToTop(vars, addr, addr + size)
  {
    if Marked(vars, i, addr, size) {
      assert i == |vars| - 1 ==> !NearerToTop(vars, addr, addr + size);
    } else if i + 1 < |vars| {
      assert PrevEnd(vars, i + 1) == VarEnd(vars[i]);
      assert Marked(vars, i + 1, addr, size);
    } else {
      forall k: nat | k < i
        ensures !Marked(vars, k, addr, size)
      {
        assert VarEnd(vars[k]) <= NextBeg(vars, k) <= vars[i].beg;
      }
    }
  }

  /**
   At least one variable is marked exactly when the frame has one and the access is not strictly
   nearer to the frame base than to the first variable, nor to the top of the address space
   than to the last.
   */
  lemma MarkedIff(vars: seq<Var>, addr: u64, size: u64)
    requires Sorted(vars) && addr + size <= TOP
    ensures (exists i: nat :: Marked(vars, i, addr, size))
            <==> |vars| > 0 && !NearerToBase(vars, addr, addr + size) && !NearerToTop(vars, addr, addr + size)
  {
    if |vars| > 0 {
      if addr < vars[0].beg {
        MarkedWhenBefore(vars, addr, size);
        assert |vars| > 1 ==> vars[0].beg <= vars[|vars| - 1].beg;
      } else {
        var i := LastStart(vars, addr, |vars|);
        MarkedAfterStart(vars, addr, size, i);
      }
    }
  }

  /** An access of enormous size just behind the only variable of a frame is attributed to nothing. */
  lemma FarAccessUnmarked()
    ensures var vars, addr, size := [Var(32, 8)], 48, TOP - 52;
            Sorted(vars) && addr + size <= TOP && forall i: nat :: !Marked(vars, i, addr, size)
  {
    var vars, addr, size := [Var(32, 8)], 48, TOP - 52;
    assert Sorted(vars) && NearerToTop(vars, addr, addr + size);
    MarkedIff(vars, addr, size);
  }
}
