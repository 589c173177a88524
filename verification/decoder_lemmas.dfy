/**
 * Properties of the decoder's cut (`Decoder.Cut`, `Decoder.Ranges`) and of the
 * records written for it: the ranges tile the unit, which breakpoint closes
 * each range and which frames label it, and which ranges are dropped.
 */
module DecoderLemmas {
  import opened Wrappers
  import opened Utils
  import opened Events
  import opened Decoder

  // ---------------------------------------------------------------------------
  // Contiguity
  // ---------------------------------------------------------------------------

  /** `rs` tiles [lo, hi) without gaps: the first range starts at `lo`, each
      later one starts where the previous one ended, the last one ends at
      `hi`; there is no range only when `lo == hi`. */
  predicate Contiguous(rs: seq<Range>, lo: int, hi: int)
  {
    if rs == [] then lo == hi
    else
      && rs[0].start == lo
      && rs[|rs| - 1].end == hi
      && forall k :: 0 <= k < |rs| - 1 ==> rs[k].end == rs[k + 1].start
  }

  lemma ContiguousCons(r: Range, rs: seq<Range>, lo: int, hi: int)
    requires r.start == lo && Contiguous(rs, r.end, hi)
    ensures Contiguous([r] + rs, lo, hi)
  {
    var all := [r] + rs;
    forall k | 0 <= k < |all| - 1
      ensures all[k].end == all[k + 1].start
    {
      assert all[k + 1] == rs[k];
      if k > 0 {
        assert all[k] == rs[k - 1];
      }
    }
  }

  lemma {:induction false} CutContiguous(pcinfo: seq<PCStackInfo>, i: nat, cur: MethodId, start: int, end: int)
    requires i <= |pcinfo|
    ensures Contiguous(Cut(pcinfo, i, cur, start, end), start, end)
    decreases |pcinfo| - i
  {
    if i < |pcinfo| {
      var top := pcinfo[i].methods[0];
      if top != cur {
        var pc := pcinfo[i].pc;
        CutContiguous(pcinfo, i + 1, top, pc, end);
        var tail := Cut(pcinfo, i + 1, top, pc, end);
        ContiguousCons(Range(start, pc, LabelAt(pcinfo, i)), tail, start, end);
      } else {
        CutContiguous(pcinfo, i + 1, cur, start, end);
      }
    }
  }

  /** Whatever the breakpoints, the first range starts at the code address,
      each later range starts where the previous one ended, and the last one
      ends at `addr + size`: a trailing range is added exactly when the last
      start is not already the end. */
  lemma RangesContiguous(root: MethodId, addr: int, size: int, pcinfo: seq<PCStackInfo>)
    ensures Contiguous(Ranges(root, addr, size, pcinfo), addr, addr + size)
  {
    CutContiguous(pcinfo, 0, root, addr, addr + size);
  }

  // ---------------------------------------------------------------------------
  // Partition of the unit when the breakpoints ascend
  // ---------------------------------------------------------------------------

  /** The pcs of the breakpoints from `i` on lie within [lo, hi] and do not
      decrease. */
  predicate PcsAscendWithin(pcinfo: seq<PCStackInfo>, i: nat, lo: int, hi: int)
  {
    && (forall j :: i <= j < |pcinfo| ==> lo <= pcinfo[j].pc <= hi)
    && (forall j, k :: i <= j < k < |pcinfo| ==> pcinfo[j].pc <= pcinfo[k].pc)
  }

  lemma {:induction false} CutOrdered(pcinfo: seq<PCStackInfo>, i: nat, cur: MethodId, start: int, end: int)
    requires i <= |pcinfo| && start <= end
    requires PcsAscendWithin(pcinfo, i, start, end)
    ensures forall r :: r in Cut(pcinfo, i, cur, start, end) ==> r.start <= r.end
    decreases |pcinfo| - i
  {
    if i < |pcinfo| {
      var top := pcinfo[i].methods[0];
      if top != cur {
        CutOrdered(pcinfo, i + 1, top, pcinfo[i].pc, end);
      } else {
        CutOrdered(pcinfo, i + 1, cur, start, end);
      }
    }
  }

  /** Address `a` lies in one of the ranges `rs`. */
  predicate Covers(rs: seq<Range>, a: int)
  {
    exists k :: 0 <= k < |rs| && rs[k].start <= a < rs[k].end
  }

  lemma ContiguousTail(rs: seq<Range>, lo: int, hi: int)
    requires Contiguous(rs, lo, hi) && |rs| > 1
    ensures rs[0].end == rs[1].start
    ensures Contiguous(rs[1..], rs[1].start, hi)
  {
    var tail := rs[1..];
    forall k | 0 <= k < |tail| - 1
      ensures tail[k].end == tail[k + 1].start
    {
      assert tail[k] == rs[k + 1] && tail[k + 1] == rs[k + 2];
    }
  }

  /** Contiguous ranges, none of them reversed, cover every address of
      [lo, hi) and do not overlap. */
  lemma {:induction false} ContiguousTiles(rs: seq<Range>, lo: int, hi: int)
    requires Contiguous(rs, lo, hi)
    requires forall r :: r in rs ==> r.start <= r.end
    ensures lo <= hi
    ensures forall a :: lo <= a < hi ==> Covers(rs, a)
    ensures forall k, l :: 0 <= k < l < |rs| ==> rs[k].end <= rs[l].start
    decreases |rs|
  {
    if |rs| == 1 {
      assert rs[0] in rs;
    } else if |rs| > 1 {
      var tail := rs[1..];
      var mid := rs[1].start;
      ContiguousTail(rs, lo, hi);
      assert forall r :: r in tail ==> r in rs;
      ContiguousTiles(tail, mid, hi);
      assert rs[0] in rs;
      assert lo <= rs[0].end == mid <= hi;
      forall a | lo <= a < hi
        ensures Covers(rs, a)
      {
        if a < mid {
          assert rs[0].start <= a < rs[0].end;
        } else {
          assert Covers(tail, a);
          var k' :| 0 <= k' < |tail| && tail[k'].start <= a < tail[k'].end;
          assert rs[k' + 1] == tail[k'];
        }
      }
      forall k, l | 0 <= k < l < |rs|
        ensures rs[k].end <= rs[l].start
      {
        assert rs[l] == tail[l - 1];
        if k > 0 {
          assert rs[k] == tail[k - 1];
        } else if l > 1 {
          assert tail[0] in rs;
          assert tail[0].end <= tail[l - 1].start;
        }
      }
    }
  }

  /** When the breakpoint pcs ascend within the unit, the ranges partition
      it: none is reversed, every address of [addr, addr + size) lies in one
      of them, and they do not overlap. */
  lemma RangesPartition(root: MethodId, addr: int, size: int, pcinfo: seq<PCStackInfo>)
    requires 0 <= size
    requires PcsAscendWithin(pcinfo, 0, addr, addr + size)
    ensures var rs := Ranges(root, addr, size, pcinfo);
      && Contiguous(rs, addr, addr + size)
      && (forall r :: r in rs ==> r.start <= r.end)
      && (forall a :: addr <= a < addr + size ==> Covers(rs, a))
      && (forall k, l :: 0 <= k < l < |rs| ==> rs[k].end <= rs[l].start)
  {
    RangesContiguous(root, addr, size, pcinfo);
    CutOrdered(pcinfo, 0, root, addr, addr + size);
    ContiguousTiles(Ranges(root, addr, size, pcinfo), addr, addr + size);
  }

  // ---------------------------------------------------------------------------
  // Which breakpoint closes a range, and how it is labelled
  // ---------------------------------------------------------------------------

  /** The method the loop tracks when it reaches breakpoint `i`: the root
      before the first breakpoint, afterwards the top frame of the previous
      one. */
  function Tracked(root: MethodId, pcinfo: seq<PCStackInfo>, i: nat): MethodId
    requires i <= |pcinfo|
  {
    if i == 0 then root else pcinfo[i - 1].methods[0]
  }

  /** Breakpoint `j` closes a range: its top frame is not the tracked
      method. */
  predicate ClosesRange(root: MethodId, pcinfo: seq<PCStackInfo>, j: nat)
    requires j < |pcinfo|
  {
    pcinfo[j].methods[0] != Tracked(root, pcinfo, j)
  }

  /** Range `r` was closed at a breakpoint `j >= i` that closes a range: it
      ends at that breakpoint's pc and is labelled as `LabelAt` says. */
  predicate ClosedAtBreakpoint(root: MethodId, pcinfo: seq<PCStackInfo>, i: nat, r: Range)
  {
    exists j :: i <= j < |pcinfo| && ClosesRange(root, pcinfo, j) && EndsAt(pcinfo, r, j)
  }

  /** Range `r` is the trailing range: it ends at the end of the unit and is
      labelled with the last breakpoint's frames (the root alone when there
      is none). */
  predicate IsTrailing(pcinfo: seq<PCStackInfo>, r: Range, end: int)
  {
    r.end == end && r.attribution == LabelAt(pcinfo, |pcinfo|)
  }

  /** Range `r` ends at breakpoint `j` and carries the label of the
      breakpoint before it (the root alone for the first). */
  predicate EndsAt(pcinfo: seq<PCStackInfo>, r: Range, j: nat)
    requires j < |pcinfo|
  {
    r.end == pcinfo[j].pc && r.attribution == LabelAt(pcinfo, j)
  }

  /** Every range of `rs` was closed at a breakpoint from `i` on, except
      that the last one may instead be the trailing range. */
  predicate LabelledByBreakpoints(root: MethodId, pcinfo: seq<PCStackInfo>, i: nat, rs: seq<Range>, end: int)
  {
    forall k :: 0 <= k < |rs| ==> ClosedAtBreakpoint(root, pcinfo, i, rs[k]) || (k == |rs| - 1 && IsTrailing(pcinfo, rs[k], end))
  }

  /** What holds from breakpoint `i + 1` on holds from `i` on. */
  lemma LabelledFromEarlier(root: MethodId, pcinfo: seq<PCStackInfo>, i: nat, rs: seq<Range>, end: int)
    requires LabelledByBreakpoints(root, pcinfo, i + 1, rs, end)
    ensures LabelledByBreakpoints(root, pcinfo, i, rs, end)
  {
    forall k | 0 <= k < |rs| && ClosedAtBreakpoint(root, pcinfo, i + 1, rs[k])
      ensures ClosedAtBreakpoint(root, pcinfo, i, rs[k])
    {
      var j :| i + 1 <= j < |pcinfo| && ClosesRange(root, pcinfo, j) && EndsAt(pcinfo, rs[k], j);
    }
  }

  /** A range closed at breakpoint `i`, put in front of ranges closed from
      `i + 1` on. */
  lemma LabelledCons(root: MethodId, pcinfo: seq<PCStackInfo>, i: nat, r: Range, rs: seq<Range>, end: int)
    requires i < |pcinfo| && ClosesRange(root, pcinfo, i) && EndsAt(pcinfo, r, i)
    requires LabelledByBreakpoints(root, pcinfo, i + 1, rs, end)
    ensures LabelledByBreakpoints(root, pcinfo, i, [r] + rs, end)
  {
    LabelledFromEarlier(root, pcinfo, i, rs, end);
    var all := [r] + rs;
    forall k | 0 <= k < |all|
      ensures ClosedAtBreakpoint(root, pcinfo, i, all[k]) || (k == |all| - 1 && IsTrailing(pcinfo, all[k], end))
    {
      if k == 0 {
        assert EndsAt(pcinfo, all[0], i);
      } else {
        assert all[k] == rs[k - 1];
      }
    }
  }

  /** The delay rule, one way: every range except a trailing one ends at
      the pc of a breakpoint that closes a range and is labelled with the
      frames of the breakpoint before it (the root alone for the first);
      the trailing one ends at `end` and is labelled with the last
      breakpoint's frames. */
  lemma {:induction false} CutLabels(root: MethodId, pcinfo: seq<PCStackInfo>, i: nat, start: int, end: int)
    requires i <= |pcinfo|
    ensures LabelledByBreakpoints(root, pcinfo, i, Cut(pcinfo, i, Tracked(root, pcinfo, i), start, end), end)
    decreases |pcinfo| - i
  {
    if i < |pcinfo| {
      var cur := Tracked(root, pcinfo, i);
      var top := pcinfo[i].methods[0];
      assert Tracked(root, pcinfo, i + 1) == top;
      if top != cur {
        var pc := pcinfo[i].pc;
        CutLabels(root, pcinfo, i + 1, pc, end);
        LabelledCons(root, pcinfo, i, Range(start, pc, LabelAt(pcinfo, i)), Cut(pcinfo, i + 1, top, pc, end), end);
      } else {
        CutLabels(root, pcinfo, i + 1, start, end);
        LabelledFromEarlier(root, pcinfo, i, Cut(pcinfo, i + 1, cur, start, end), end);
      }
    } else {
      var rs := Cut(pcinfo, i, Tracked(root, pcinfo, i), start, end);
      assert forall k :: 0 <= k < |rs| ==> k == |rs| - 1 && IsTrailing(pcinfo, rs[k], end);
    }
  }

  /** Some range of `rs` ends at breakpoint `j`, labelled as `LabelAt`
      says. */
  predicate EndsSomeRange(pcinfo: seq<PCStackInfo>, rs: seq<Range>, j: nat)
    requires j < |pcinfo|
  {
    exists k :: 0 <= k < |rs| && EndsAt(pcinfo, rs[k], j)
  }

  /** Every breakpoint from `i` on that closes a range ends one of `rs`. */
  predicate EndsAtEveryChange(root: MethodId, pcinfo: seq<PCStackInfo>, i: nat, rs: seq<Range>)
  {
    forall j :: i <= j < |pcinfo| && ClosesRange(root, pcinfo, j) ==> EndsSomeRange(pcinfo, rs, j)
  }

  lemma EndsAtEveryChangeCons(root: MethodId, pcinfo: seq<PCStackInfo>, i: nat, r: Range, rs: seq<Range>)
    requires i < |pcinfo| && EndsAt(pcinfo, r, i)
    requires EndsAtEveryChange(root, pcinfo, i + 1, rs)
    ensures EndsAtEveryChange(root, pcinfo, i, [r] + rs)
  {
    var all := [r] + rs;
    forall j | i <= j < |pcinfo| && ClosesRange(root, pcinfo, j)
      ensures EndsSomeRange(pcinfo, all, j)
    {
      if j == i {
        assert EndsAt(pcinfo, all[0], j);
      } else {
        var k :| 0 <= k < |rs| && EndsAt(pcinfo, rs[k], j);
        assert all[k + 1] == rs[k];
      }
    }
  }

  lemma EndsAtEveryChangeSkip(root: MethodId, pcinfo: seq<PCStackInfo>, i: nat, rs: seq<Range>)
    requires i < |pcinfo| && !ClosesRange(root, pcinfo, i)
    requires EndsAtEveryChange(root, pcinfo, i + 1, rs)
    ensures EndsAtEveryChange(root, pcinfo, i, rs)
  {
  }

  /** The delay rule, the other way: every breakpoint that closes a range
      ends a range labelled with the frames of the breakpoint before it. */
  lemma {:induction false} CutClosesAtEveryChange(root: MethodId, pcinfo: seq<PCStackInfo>, i: nat, start: int, end: int)
    requires i <= |pcinfo|
    ensures EndsAtEveryChange(root, pcinfo, i, Cut(pcinfo, i, Tracked(root, pcinfo, i), start, end))
    decreases |pcinfo| - i
  {
    if i < |pcinfo| {
      var cur := Tracked(root, pcinfo, i);
      var top := pcinfo[i].methods[0];
      assert Tracked(root, pcinfo, i + 1) == top;
      if top != cur {
        var pc := pcinfo[i].pc;
        CutClosesAtEveryChange(root, pcinfo, i + 1, pc, end);
        EndsAtEveryChangeCons(root, pcinfo, i, Range(start, pc, LabelAt(pcinfo, i)), Cut(pcinfo, i + 1, top, pc, end));
      } else {
        CutClosesAtEveryChange(root, pcinfo, i + 1, start, end);
        EndsAtEveryChangeSkip(root, pcinfo, i, Cut(pcinfo, i + 1, cur, start, end));
      }
    }
  }

  /** Breakpoints whose top frame stays the tracked method close nothing:
      when none from `i` on changes it, only the trailing range is left. */
  lemma {:induction false} SameTopClosesNothing(root: MethodId, pcinfo: seq<PCStackInfo>, i: nat, start: int, end: int)
    requires i <= |pcinfo|
    requires forall j :: i <= j < |pcinfo| ==> !ClosesRange(root, pcinfo, j)
    ensures Cut(pcinfo, i, Tracked(root, pcinfo, i), start, end)
         == if start != end then [Range(start, end, LabelAt(pcinfo, |pcinfo|))] else []
    decreases |pcinfo| - i
  {
    if i < |pcinfo| {
      assert !ClosesRange(root, pcinfo, i);
      SameTopClosesNothing(root, pcinfo, i + 1, start, end);
    }
  }

  /** When the first breakpoint sits at the code address and its top frame
      is not the root, the first range is empty and labelled with the root
      alone, and its record has size 0. */
  lemma ZeroLengthSingleEntry(env: Env, root: MethodId, addr: int, size: int, pcinfo: seq<PCStackInfo>, now: int)
    requires |pcinfo| > 0 && pcinfo[0].pc == addr && pcinfo[0].methods[0] != root
    requires Resolve(env, root) != []
    ensures Ranges(root, addr, size, pcinfo)[0] == Range(addr, addr, RootOnly)
    ensures LoadRecords(env, root, addr, size, InlineRecord(pcinfo), now)[0] == MethodLoad(now, addr, 0, Resolve(env, root))
  {
    var rs := Ranges(root, addr, size, pcinfo);
    assert rs[0] == Range(addr, addr, RootOnly);
  }

  // ---------------------------------------------------------------------------
  // Which ranges become records
  // ---------------------------------------------------------------------------

  /** The label of `r` resolves to a symbol. */
  predicate Resolves(env: Env, root: MethodId, r: Range)
  {
    LabelSymbol(env, root, r.attribution).Some?
  }

  /** The `method_load` record a resolving range is written as. */
  function RecordOf(env: Env, root: MethodId, r: Range, now: int): Record
    requires Resolves(env, root, r)
  {
    MethodLoad(now, r.start, r.end - r.start, LabelSymbol(env, root, r.attribution).value)
  }

  /** Each range whose label resolves is written as its `method_load`
      record: a range whose chain fails does not stop the others. */
  lemma {:induction false} EmitKeepsResolved(env: Env, root: MethodId, rs: seq<Range>, now: int)
    ensures forall k :: 0 <= k < |rs| && Resolves(env, root, rs[k]) ==> RecordOf(env, root, rs[k], now) in Emit(env, root, rs, now)
    decreases |rs|
  {
    if rs != [] {
      var tail := rs[1..];
      EmitKeepsResolved(env, root, tail, now);
      assert Emit(env, root, rs, now) == RangeRecord(env, root, rs[0], now) + Emit(env, root, tail, now);
      forall k | 0 <= k < |rs| && Resolves(env, root, rs[k])
        ensures RecordOf(env, root, rs[k], now) in Emit(env, root, rs, now)
      {
        if k > 0 {
          assert rs[k] == tail[k - 1];
        }
      }
    }
  }

  /** Every record written comes from a range whose label resolves. */
  lemma {:induction false} EmitOnlyResolved(env: Env, root: MethodId, rs: seq<Range>, now: int)
    ensures forall rec :: rec in Emit(env, root, rs, now) ==>
      exists k :: 0 <= k < |rs| && Resolves(env, root, rs[k]) && rec == RecordOf(env, root, rs[k], now)
    decreases |rs|
  {
    if rs != [] {
      var tail := rs[1..];
      EmitOnlyResolved(env, root, tail, now);
      var head := RangeRecord(env, root, rs[0], now);
      assert Emit(env, root, rs, now) == head + Emit(env, root, tail, now);
      forall rec | rec in Emit(env, root, rs, now)
        ensures exists k :: 0 <= k < |rs| && Resolves(env, root, rs[k]) && rec == RecordOf(env, root, rs[k], now)
      {
        if rec in head {
          assert rec == RecordOf(env, root, rs[0], now);
        } else {
          var k :| 0 <= k < |tail| && Resolves(env, root, tail[k]) && rec == RecordOf(env, root, tail[k], now);
          assert rs[k + 1] == tail[k];
        }
      }
    }
  }

  /** Without an inline record (no compile info, or a header of another
      kind) one record covers the whole unit, labelled with the root; an
      unresolvable root writes nothing. */
  lemma SingleRecordWithoutInlineInfo(env: Env, root: MethodId, addr: int, size: int, info: CompileInfo, now: int)
    requires !info.InlineRecord?
    ensures LoadRecords(env, root, addr, size, info, now)
         == if Resolve(env, root) == [] then [] else [MethodLoad(now, addr, size, Resolve(env, root))]
  {
  }

  /** An unresolvable root drops the whole unit, whatever the breakpoints. */
  lemma UnresolvedRootWritesNothing(env: Env, root: MethodId, addr: int, size: int, info: CompileInfo, now: int)
    requires Resolve(env, root) == []
    ensures LoadRecords(env, root, addr, size, info, now) == []
  {
  }

  /** Root A, a breakpoint at pc 0 with frames [A] and one at pc 100 with
      frames [B, A], size 200: [0, 100) is labelled "A" and [100, 200)
      "A->B". */
  lemma WorkedExample(env: Env, a: MethodId, b: MethodId, now: int)
    requires a != b && Resolve(env, a) != [] && Resolve(env, b) != []
    ensures var pcinfo := [PCStackInfo(0, [a]), PCStackInfo(100, [b, a])];
      && Ranges(a, 0, 200, pcinfo) == [Range(0, 100, ChainOf([a])), Range(100, 200, ChainOf([b, a]))]
      && LoadRecords(env, a, 0, 200, InlineRecord(pcinfo), now)
         == [MethodLoad(now, 0, 100, Resolve(env, a)), MethodLoad(now, 100, 100, Resolve(env, a) + "->" + Resolve(env, b))]
  {
    var pcinfo := [PCStackInfo(0, [a]), PCStackInfo(100, [b, a])];
    var rs := [Range(0, 100, ChainOf([a])), Range(100, 200, ChainOf([b, a]))];
    assert Cut(pcinfo, 2, b, 100, 200) == [Range(100, 200, ChainOf([b, a]))];
    assert Cut(pcinfo, 1, a, 0, 200) == rs;
    assert Ranges(a, 0, 200, pcinfo) == rs;
    assert ChainSymbol(env, [a]) == Some(Resolve(env, a));
    assert ChainFrom(env, [b, a], 1) == Some(Resolve(env, a));
    assert ChainSymbol(env, [b, a]) == Some(Resolve(env, a) + "->" + Resolve(env, b));
    assert Emit(env, a, rs[1..], now) == [MethodLoad(now, 100, 100, Resolve(env, a) + "->" + Resolve(env, b))];
  }
}
