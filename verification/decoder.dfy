/**
 * The compiled-code decoder (src/agent.cpp, generate_unfolded_entries and the
 * load/unload callbacks).
 *
 * A CompiledMethodLoad notification carries a root method, a code address, a
 * size and an optional compile-info record. With an inline record, the code
 * is cut into address ranges at the breakpoints where the top frame changes,
 * and each range is written as one `method_load` record labelled with a symbol
 * or a symbol chain.
 *
 * `Ranges` states, without reference to the loop, which ranges a unit is cut
 * into and how each is labelled; `GenerateUnfoldedEntries` is the loop, proved
 * to write exactly the records `Ranges` and the resolver determine.
 */
module Decoder {
  import opened Wrappers
  import opened Utils
  import opened Events

  /** The frames active at a breakpoint, top (innermost) frame first. */
  type Frames = s: seq<MethodId> | |s| >= 1 witness [0]

  /** One `PCStackInfo` of an inline record. */
  datatype PCStackInfo = PCStackInfo(pc: int, methods: Frames)

  /** The `compile_info` argument of CompiledMethodLoad. */
  datatype CompileInfo =
    | NoCompileInfo                           // a null pointer
    | OtherRecord                             // a header whose kind is not JVMTI_CMLR_INLINE_INFO
    | InlineRecord(pcinfo: seq<PCStackInfo>)  // a jvmtiCompiledMethodLoadInlineRecord

  /** How a range is labelled: by the root method alone (generate_single_entry)
      or by the frames of one breakpoint (write_unfolded_entry). */
  datatype Label = RootOnly | ChainOf(frames: Frames)

  /** An address range [start, end) and its label. */
  datatype Range = Range(start: int, end: int, attribution: Label)

  // ---------------------------------------------------------------------------
  // Which ranges a unit is cut into
  // ---------------------------------------------------------------------------

  /** A range closed at breakpoint `i` (or the trailing range, `i == |pcinfo|`)
      is labelled with the frames of the breakpoint before it, or with the
      root alone when there is none. */
  function LabelAt(pcinfo: seq<PCStackInfo>, i: nat): Label
    requires i <= |pcinfo|
  {
    if i == 0 then RootOnly else ChainOf(pcinfo[i - 1].methods)
  }

  /** The ranges the breakpoint loop closes from breakpoint `i` on, while it
      tracks `cur` and the pending range starts at `start`, followed by the
      trailing range up to `end` when there is a gap. A breakpoint whose top
      frame is the tracked method is passed over. */
  function Cut(pcinfo: seq<PCStackInfo>, i: nat, cur: MethodId, start: int, end: int): seq<Range>
    requires i <= |pcinfo|
    decreases |pcinfo| - i
  {
    if i == |pcinfo| then
      if start != end then [Range(start, end, LabelAt(pcinfo, i))] else []
    else if pcinfo[i].methods[0] != cur then
      [Range(start, pcinfo[i].pc, LabelAt(pcinfo, i))] + Cut(pcinfo, i + 1, pcinfo[i].methods[0], pcinfo[i].pc, end)
    else
      Cut(pcinfo, i + 1, cur, start, end)
  }

  /** The ranges a unit with root `root` at `addr` of `size` bytes is cut
      into. */
  function Ranges(root: MethodId, addr: int, size: int, pcinfo: seq<PCStackInfo>): seq<Range>
  {
    Cut(pcinfo, 0, root, addr, addr + size)
  }

  // ---------------------------------------------------------------------------
  // Which records the ranges become
  // ---------------------------------------------------------------------------

  /** The resolved names of `frames`, outermost (last stored) first. */
  function OutermostFirst(env: Env, frames: seq<MethodId>): (names: seq<string>)
    ensures |names| == |frames|
  {
    seq(|frames|, k requires 0 <= k < |frames| => Resolve(env, frames[|frames| - 1 - k]))
  }

  /** Every frame resolves. */
  predicate AllResolve(env: Env, frames: seq<MethodId>)
  {
    forall k :: 0 <= k < |frames| ==> Resolve(env, frames[k]) != []
  }

  /** The chain of the frames `frames[i..]`: the chain of the outer frames,
      "->", then frame `i`; nothing when one of them does not resolve. */
  function ChainFrom(env: Env, frames: Frames, i: nat): Option<string>
    requires i < |frames|
    decreases |frames| - i
  {
    var top := Resolve(env, frames[i]);
    if top == [] then None
    else if i == |frames| - 1 then Some(top)
    else match ChainFrom(env, frames, i + 1)
      case None => None
      case Some(outer) => Some(outer + "->" + top)
  }

  /** The chain `write_unfolded_entry` writes for `frames`. */
  function ChainSymbol(env: Env, frames: Frames): Option<string>
  {
    ChainFrom(env, frames, 0)
  }

  lemma AllResolveStep(env: Env, frames: seq<MethodId>, i: nat)
    requires i < |frames| - 1
    ensures AllResolve(env, frames[i..]) <==> Resolve(env, frames[i]) != [] && AllResolve(env, frames[i + 1..])
  {
    var outer := frames[i + 1..];
    if Resolve(env, frames[i]) != [] && AllResolve(env, outer) {
      forall k | 0 <= k < |frames| - i ensures Resolve(env, frames[i..][k]) != [] {
        if k > 0 { assert frames[i..][k] == outer[k - 1]; }
      }
    }
  }

  lemma OutermostFirstStep(env: Env, frames: seq<MethodId>, i: nat)
    requires i < |frames| - 1
    ensures OutermostFirst(env, frames[i..]) == OutermostFirst(env, frames[i + 1..]) + [Resolve(env, frames[i])]
  {
  }

  /** The chain of `frames[i..]` is their resolved names joined by "->",
      outermost first, with no trailing separator, and exists iff each of
      them resolves. */
  lemma {:induction false} ChainFromJoins(env: Env, frames: Frames, i: nat)
    requires i < |frames|
    ensures ChainFrom(env, frames, i)
         == if AllResolve(env, frames[i..]) then Some(Join(OutermostFirst(env, frames[i..]), "->")) else None
    decreases |frames| - i
  {
    if i == |frames| - 1 {
      assert OutermostFirst(env, frames[i..]) == [Resolve(env, frames[i])];
    } else {
      ChainFromJoins(env, frames, i + 1);
      AllResolveStep(env, frames, i);
      OutermostFirstStep(env, frames, i);
      JoinSnoc(OutermostFirst(env, frames[i + 1..]), Resolve(env, frames[i]), "->");
    }
  }

  /** The chain is the resolved names joined by "->", outermost first, and
      exists iff every frame resolves. */
  lemma ChainSymbolJoins(env: Env, frames: Frames)
    ensures ChainSymbol(env, frames) == if AllResolve(env, frames) then Some(Join(OutermostFirst(env, frames), "->")) else None
  {
    ChainFromJoins(env, frames, 0);
    assert frames[0..] == frames;
  }

  /** A chain that fails for the outer frames `frames[i..]` fails for all. */
  lemma {:induction false} ChainFailsFrom(env: Env, frames: Frames, i: nat)
    requires i < |frames|
    requires ChainFrom(env, frames, i) == None
    ensures ChainSymbol(env, frames) == None
    decreases i
  {
    if i > 0 {
      ChainFailsFrom(env, frames, i - 1);
    }
  }

  /** The symbol `generate_single_entry` writes, or nothing. */
  function SingleSymbol(env: Env, m: MethodId): Option<string>
  {
    if Resolve(env, m) == [] then None else Some(Resolve(env, m))
  }

  function LabelSymbol(env: Env, root: MethodId, attribution: Label): Option<string>
  {
    match attribution
    case RootOnly => SingleSymbol(env, root)
    case ChainOf(fs) => ChainSymbol(env, fs)
  }

  /** The record written for one symbol, or none when it did not resolve. */
  function SymbolRecord(symbol: Option<string>, addr: int, size: int, now: int): seq<Record>
  {
    match symbol
    case None => []
    case Some(s) => [MethodLoad(now, addr, size, s)]
  }

  function RangeRecord(env: Env, root: MethodId, r: Range, now: int): seq<Record>
  {
    SymbolRecord(LabelSymbol(env, root, r.attribution), r.start, r.end - r.start, now)
  }

  /** The records written for the ranges `rs`, in order, dropping those whose
      label does not resolve. */
  function Emit(env: Env, root: MethodId, rs: seq<Range>, now: int): seq<Record>
  {
    if rs == [] then [] else RangeRecord(env, root, rs[0], now) + Emit(env, root, rs[1..], now)
  }

  lemma {:induction false} EmitAppend(env: Env, root: MethodId, rs: seq<Range>, ss: seq<Range>, now: int)
    ensures Emit(env, root, rs + ss, now) == Emit(env, root, rs, now) + Emit(env, root, ss, now)
    decreases |rs|
  {
    if rs != [] {
      assert (rs + ss)[1..] == rs[1..] + ss;
      EmitAppend(env, root, rs[1..], ss, now);
    } else {
      assert rs + ss == ss;
    }
  }

  /** What one CompiledMethodLoad notification appends to the events file. */
  function LoadRecords(env: Env, root: MethodId, addr: int, size: int, info: CompileInfo, now: int): seq<Record>
  {
    if Resolve(env, root) == [] then []
    else match info
      case InlineRecord(pcinfo) => Emit(env, root, Ranges(root, addr, size, pcinfo), now)
      case _ => [MethodLoad(now, addr, size, Resolve(env, root))]
  }

  // ---------------------------------------------------------------------------
  // The writers and the decoder loop
  // ---------------------------------------------------------------------------

  /** `generate_single_entry`: one record labelled with `m`, unless `m` does
      not resolve. */
  method GenerateSingleEntry(log: EventLog, env: Env, m: MethodId, addr: int, size: int, now: int)
    modifies log
    ensures log.records == old(log.records) + SymbolRecord(SingleSymbol(env, m), addr, size, now)
  {
    var entry, _ := SigString(env, m);
    if entry == [] {
      return;
    }
    log.WriteMethodLoad(now, addr, size, entry);
  }

  /** One step of the chain towards the top frame: a frame that resolves
      extends the chain of the outer frames (or starts it, outermost). */
  lemma ChainFromStep(env: Env, frames: Frames, i: nat, built: string)
    requires i < |frames| && Resolve(env, frames[i]) != []
    requires i < |frames| - 1 ==> ChainFrom(env, frames, i + 1) == Some(built)
    ensures ChainFrom(env, frames, i)
         == Some(if i < |frames| - 1 then built + "->" + Resolve(env, frames[i]) else Resolve(env, frames[i]))
  {
  }

  /** The loop of `write_unfolded_entry`: the chain built from the outermost
      frame down to the top one, or nothing as soon as a frame does not
      resolve. */
  method BuildChain(env: Env, frames: Frames) returns (chain: Option<string>)
    ensures chain == ChainSymbol(env, frames)
  {
    var n := |frames|;
    var result := "";
    ghost var built := "";
    var i := n - 1;
    while i >= 0
      invariant -1 <= i < n
      invariant i == n - 1 ==> result == ""
      invariant i < n - 1 ==> ChainFrom(env, frames, i + 1) == Some(built)
      invariant i < n - 1 ==> result == built + (if i >= 0 then "->" else "")
    {
      var signature, _ := SigString(env, frames[i]);
      if signature == [] {
        ChainFailsFrom(env, frames, i);
        return None;
      }
      ChainFromStep(env, frames, i, built);
      if i < n - 1 {
        ConcatAssoc(built, "->", signature);
        built := built + "->" + signature;
      } else {
        built := signature;
      }
      result := result + signature;
      if i > 0 {
        result := result + "->";
      }
      i := i - 1;
    }
    assert result == built + "" == built;
    return Some(result);
  }

  /** `write_unfolded_entry`: one record labelled with the chain of `frames`,
      unless a frame does not resolve. */
  method WriteUnfoldedEntry(log: EventLog, env: Env, frames: Frames, start: int, end: int, now: int)
    modifies log
    ensures log.records == old(log.records) + SymbolRecord(ChainSymbol(env, frames), start, end - start, now)
  {
    var chain := BuildChain(env, frames);
    if chain.None? {
      return;
    }
    log.WriteMethodLoad(now, start, end - start, chain.value);
  }

  /** One range of a unit: the chain of the breakpoint before `i` when there
      is one (write_unfolded_entry), the root alone otherwise
      (generate_single_entry). */
  method WriteRange(log: EventLog, env: Env, root: MethodId, pcinfo: seq<PCStackInfo>, i: nat, start: int, end: int, now: int)
    requires i <= |pcinfo|
    modifies log
    ensures log.records == old(log.records) + RangeRecord(env, root, Range(start, end, LabelAt(pcinfo, i)), now)
  {
    if i > 0 {
      WriteUnfoldedEntry(log, env, pcinfo[i - 1].methods, start, end, now);
    } else {
      GenerateSingleEntry(log, env, root, start, end - start, now);
    }
  }

  /** One turn of the breakpoint loop: when the top frame of breakpoint `i`
      is not the tracked method, the pending range is closed at its pc and
      written, and its top frame becomes the tracked method; otherwise
      nothing happens. `closed` is the range closed, if any. */
  method VisitBreakpoint(log: EventLog, env: Env, root: MethodId, pcinfo: seq<PCStackInfo>, i: nat,
                         cur: MethodId, start: int, end: int, now: int)
    returns (cur': MethodId, start': int, ghost closed: seq<Range>)
    requires i < |pcinfo|
    modifies log
    ensures cur' == pcinfo[i].methods[0]
    ensures (closed != []) == (pcinfo[i].methods[0] != cur)
    ensures start' == if pcinfo[i].methods[0] != cur then pcinfo[i].pc else start
    ensures closed != [] ==> closed == [Range(start, pcinfo[i].pc, LabelAt(pcinfo, i))]
    ensures Cut(pcinfo, i, cur, start, end) == closed + Cut(pcinfo, i + 1, cur', start', end)
    ensures log.records == old(log.records) + Emit(env, root, closed, now)
  {
    var top := pcinfo[i].methods[0];
    cur', start', closed := cur, start, [];
    if cur != top {
      var pc := pcinfo[i].pc;
      closed := [Range(start, pc, LabelAt(pcinfo, i))];
      WriteRange(log, env, root, pcinfo, i, start, pc, now);
      start' := pc;
      cur' := top;
    }
  }

  /** The breakpoint loop of `generate_unfolded_entries`: visits every
      breakpoint in order, tracking `cur` and `start`. `done` is the ranges
      it closed; what is left of the unit's ranges is the trailing one. */
  method WalkBreakpoints(log: EventLog, env: Env, root: MethodId, addr: int, size: int, pcinfo: seq<PCStackInfo>, now: int)
    returns (cur: MethodId, start: int, ghost done: seq<Range>)
    modifies log
    ensures done + Cut(pcinfo, |pcinfo|, cur, start, addr + size) == Ranges(root, addr, size, pcinfo)
    ensures log.records == old(log.records) + Emit(env, root, done, now)
  {
    start := addr;
    cur := root;
    done := [];
    var i := 0;
    while i < |pcinfo|
      invariant 0 <= i <= |pcinfo|
      invariant done + Cut(pcinfo, i, cur, start, addr + size) == Ranges(root, addr, size, pcinfo)
      invariant log.records == old(log.records) + Emit(env, root, done, now)
    {
      cur, start, done := WalkStep(log, env, root, pcinfo, i, cur, start, addr + size, now, old(log.records), Ranges(root, addr, size, pcinfo), done);
      i := i + 1;
    }
  }

  /** One turn of the breakpoint loop, with what it adds to the ranges
      closed so far and to the records written so far. */
  method WalkStep(log: EventLog, env: Env, root: MethodId, pcinfo: seq<PCStackInfo>, i: nat, cur: MethodId, start: int, end: int, now: int,
                  ghost base: seq<Record>, ghost target: seq<Range>, ghost done: seq<Range>)
    returns (cur': MethodId, start': int, ghost done': seq<Range>)
    requires i < |pcinfo|
    requires done + Cut(pcinfo, i, cur, start, end) == target
    requires log.records == base + Emit(env, root, done, now)
    modifies log
    ensures done' + Cut(pcinfo, i + 1, cur', start', end) == target
    ensures log.records == base + Emit(env, root, done', now)
  {
    ghost var closed;
    cur', start', closed := VisitBreakpoint(log, env, root, pcinfo, i, cur, start, end, now);
    EmitAppend(env, root, done, closed, now);
    ConcatAssoc(base, Emit(env, root, done, now), Emit(env, root, closed, now));
    ConcatAssoc(done, closed, Cut(pcinfo, i + 1, cur', start', end));
    done' := done + closed;
  }

  /** `generate_unfolded_entries` for a unit whose compile info is present:
      the breakpoint loop, then the trailing range when there is a gap. */
  method GenerateUnfoldedEntries(log: EventLog, env: Env, root: MethodId, addr: int, size: int, info: CompileInfo, now: int)
    requires info != NoCompileInfo
    modifies log
    ensures log.records == old(log.records) + LoadRecords(env, root, addr, size, info, now)
  {
    var rootName, _ := SigString(env, root);
    if rootName == [] {
      return;
    }
    if !info.InlineRecord? {
      GenerateSingleEntry(log, env, root, addr, size, now);
      return;
    }
    var pcinfo := info.pcinfo;
    var cur, start, done := WalkBreakpoints(log, env, root, addr, size, pcinfo, now);
    // record the last range if there is a gap
    if start != addr + size {
      var end := addr + size;
      ghost var trailing := [Range(start, end, LabelAt(pcinfo, |pcinfo|))];
      assert Ranges(root, addr, size, pcinfo) == done + trailing;
      WriteRange(log, env, root, pcinfo, |pcinfo|, start, end, now);
      EmitAppend(env, root, done, trailing, now);
      assert Emit(env, root, trailing, now) == RangeRecord(env, root, trailing[0], now) + [];
      ConcatAssoc(old(log.records), Emit(env, root, done, now), Emit(env, root, trailing, now));
    } else {
      assert Ranges(root, addr, size, pcinfo) == done + [] == done;
    }
  }

  /** `cbCompiledMethodLoad`. */
  method CompiledMethodLoad(log: EventLog, env: Env, m: MethodId, size: int, addr: int, info: CompileInfo, now: int)
    modifies log
    ensures log.records == old(log.records) + LoadRecords(env, m, addr, size, info, now)
  {
    if info != NoCompileInfo {
      GenerateUnfoldedEntries(log, env, m, addr, size, info, now);
    } else {
      GenerateSingleEntry(log, env, m, addr, size, now);
    }
  }

  /** `cbCompiledMethodUnload`: one record, unless `m` does not resolve. */
  method CompiledMethodUnload(log: EventLog, env: Env, m: MethodId, addr: int, now: int)
    modifies log
    ensures Resolve(env, m) == [] ==> log.records == old(log.records)
    ensures Resolve(env, m) != [] ==> log.records == old(log.records) + [MethodUnload(now, addr, Resolve(env, m))]
  {
    var entry, _ := SigString(env, m);
    if entry == [] {
      return;
    }
    log.WriteMethodUnload(now, addr, entry);
  }

  /** `cbDynamicCodeGenerated`: the stub's own name, written unconditionally. */
  method DynamicCodeGenerated(log: EventLog, name: string, addr: int, length: int, now: int)
    modifies log
    ensures log.records == old(log.records) + [MethodLoad(now, addr, length, name)]
  {
    log.WriteMethodLoad(now, addr, length, name);
  }
}
