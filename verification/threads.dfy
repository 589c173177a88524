/**
 * Thread records (src/agent.cpp, `print_all_vm_threads`, `print_jthread` and
 * the ThreadStart/ThreadEnd callbacks). The enumeration of OS threads and
 * the map from mach thread ids to Java thread names come from the runtime:
 * they are inputs here, as is the clock.
 */
module Threads {
  import opened Utils
  import opened Events

  /** One OS thread as the snapshot sees it: its mach port number, its
      pthread id and the name pthread reports for it ("" when unnamed). */
  datatype OsThread = OsThread(machTid: int, nativeTid: int, nativeName: string)

  /** The prefix HotSpot gives the native names of Java threads. */
  const NativeJavaPrefix: string := "Java: "

  const JavaLabel: string := "java: "
  const NativeLabel: string := "native: "

  /** The name a snapshot gives a thread: the Java name when the thread is a
      known Java thread; otherwise its native name, relabelled as Java when
      HotSpot marked it so; otherwise its native name, or its pthread id in
      decimal when it has none. */
  function DisplayName(javaThreads: map<int, string>, t: OsThread): string
  {
    if t.machTid in javaThreads then JavaLabel + javaThreads[t.machTid]
    else if StartsWith(t.nativeName, NativeJavaPrefix) then JavaLabel + t.nativeName[|NativeJavaPrefix|..]
    else NativeLabel + (if t.nativeName != [] then t.nativeName else Numeral(Unsigned64(t.nativeTid), Decimal))
  }

  /** A display name is labelled Java exactly when the thread is a known
      Java thread or HotSpot marked its native name, and labelled native
      otherwise. */
  lemma DisplayNameLabel(javaThreads: map<int, string>, t: OsThread)
    ensures var name := DisplayName(javaThreads, t);
      && (JavaLabel <= name <==> t.machTid in javaThreads || NativeJavaPrefix <= t.nativeName)
      && (NativeLabel <= name <==> !(t.machTid in javaThreads || NativeJavaPrefix <= t.nativeName))
  {
    var name := DisplayName(javaThreads, t);
    if t.machTid in javaThreads || NativeJavaPrefix <= t.nativeName {
      assert name[0] == 'j';
    } else {
      assert name[0] == 'n';
    }
  }

  /** What follows the label gives back what the name was made from: the
      Java name of a known thread, the native name without HotSpot's prefix,
      the native name, or (for an unnamed native thread) the pthread id as an
      unsigned 64-bit number. */
  lemma DisplayNameRecovers(javaThreads: map<int, string>, t: OsThread)
    ensures var name := DisplayName(javaThreads, t);
      if t.machTid in javaThreads then name[|JavaLabel|..] == javaThreads[t.machTid]
      else if NativeJavaPrefix <= t.nativeName then NativeJavaPrefix + name[|JavaLabel|..] == t.nativeName
      else if t.nativeName != [] then name[|NativeLabel|..] == t.nativeName
      else ParseNumeral(name[|NativeLabel|..], Decimal) == Unsigned64(t.nativeTid)
  {
    var name := DisplayName(javaThreads, t);
    if t.machTid in javaThreads {
      assert name[|JavaLabel|..] == javaThreads[t.machTid];
    } else if NativeJavaPrefix <= t.nativeName {
      var rest := t.nativeName[|NativeJavaPrefix|..];
      assert name[|JavaLabel|..] == rest;
      assert NativeJavaPrefix + rest == t.nativeName;
    } else if t.nativeName != [] {
      assert name[|NativeLabel|..] == t.nativeName;
    } else {
      assert name[|NativeLabel|..] == Numeral(Unsigned64(t.nativeTid), Decimal);
      NumeralRoundTrip(Unsigned64(t.nativeTid), Decimal);
    }
  }

  /** A known Java thread is named from the map alone: neither its native
      name nor its pthread id matter. */
  lemma JavaMapTakesPrecedence(javaThreads: map<int, string>, t: OsThread, u: OsThread)
    requires t.machTid in javaThreads && u.machTid == t.machTid
    ensures DisplayName(javaThreads, t) == DisplayName(javaThreads, u)
  {
  }

  /** The pthread id is shown only for an unknown thread without a native
      name. */
  lemma NativeTidOnlyWhenUnnamed(javaThreads: map<int, string>, t: OsThread, tid: int)
    requires 0 <= t.nativeTid < 0x1_0000_0000_0000_0000 && 0 <= tid < 0x1_0000_0000_0000_0000
    requires t.nativeTid != tid
    ensures DisplayName(javaThreads, t) != DisplayName(javaThreads, t.(nativeTid := tid))
      <==> t.machTid !in javaThreads && t.nativeName == []
  {
    if t.machTid !in javaThreads && t.nativeName == [] {
      var shown := Numeral(Unsigned64(t.nativeTid), Decimal);
      var shown' := Numeral(Unsigned64(tid), Decimal);
      assert DisplayName(javaThreads, t) == NativeLabel + shown;
      assert DisplayName(javaThreads, t.(nativeTid := tid)) == NativeLabel + shown';
      if shown == shown' {
        NumeralRoundTrip(Unsigned64(t.nativeTid), Decimal);
        NumeralRoundTrip(Unsigned64(tid), Decimal);
        assert false;
      }
      assert (NativeLabel + shown)[|NativeLabel|..] == shown;
      assert (NativeLabel + shown')[|NativeLabel|..] == shown';
    }
  }

  /** The records one snapshot writes: one per OS thread, in enumeration
      order, each with its pthread id, mach id and display name. */
  function Snapshot(javaThreads: map<int, string>, threads: seq<OsThread>, now: int): (records: seq<Record>)
    ensures |records| == |threads|
  {
    seq(|threads|, k requires 0 <= k < |threads| =>
      Thread(now, threads[k].nativeTid, threads[k].machTid, DisplayName(javaThreads, threads[k])))
  }

  /** The record for thread `t` of a snapshot names it as its own display
      name says, and every record of the snapshot is some thread's. */
  lemma SnapshotRecords(javaThreads: map<int, string>, threads: seq<OsThread>, now: int)
    ensures forall t :: t in threads ==> Thread(now, t.nativeTid, t.machTid, DisplayName(javaThreads, t)) in Snapshot(javaThreads, threads, now)
    ensures forall r :: r in Snapshot(javaThreads, threads, now) ==>
      exists t :: t in threads && r == Thread(now, t.nativeTid, t.machTid, DisplayName(javaThreads, t))
  {
    var s := Snapshot(javaThreads, threads, now);
    forall t | t in threads
      ensures Thread(now, t.nativeTid, t.machTid, DisplayName(javaThreads, t)) in s
    {
      var k :| 0 <= k < |threads| && threads[k] == t;
      assert s[k] == Thread(now, t.nativeTid, t.machTid, DisplayName(javaThreads, t));
    }
  }

  lemma SnapshotSnoc(javaThreads: map<int, string>, threads: seq<OsThread>, i: nat, now: int)
    requires i < |threads|
    ensures Snapshot(javaThreads, threads[..i + 1], now)
      == Snapshot(javaThreads, threads[..i], now) + [Thread(now, threads[i].nativeTid, threads[i].machTid, DisplayName(javaThreads, threads[i]))]
  {
  }

  /** `print_all_vm_threads`: writes one record per OS thread, in the order
      the OS enumerates them. */
  method PrintAllVmThreads(log: EventLog, javaThreads: map<int, string>, threads: seq<OsThread>, now: int)
    modifies log
    ensures log.records == old(log.records) + Snapshot(javaThreads, threads, now)
  {
    ghost var before := log.records;
    for i := 0 to |threads|
      invariant log.records == before + Snapshot(javaThreads, threads[..i], now)
    {
      var t := threads[i];
      log.WriteThread(now, t.nativeTid, t.machTid, DisplayName(javaThreads, t));
      SnapshotSnoc(javaThreads, threads, i, now);
    }
    assert threads[..|threads|] == threads;
  }

  /** The record `print_jthread` writes for a Java thread that the runtime
      names `javaName`. */
  function JThreadRecord(now: int, nativeTid: int, machTid: int, javaName: string): Record
  {
    Thread(now, nativeTid, machTid, JavaLabel + javaName)
  }

  /** A thread start or end record names the thread as a snapshot taken at
      the same instant would, when the snapshot's map knows the thread by
      the same Java name. */
  lemma JThreadRecordAgreesWithSnapshot(javaThreads: map<int, string>, t: OsThread, now: int)
    requires t.machTid in javaThreads
    ensures JThreadRecord(now, t.nativeTid, t.machTid, javaThreads[t.machTid]) == Snapshot(javaThreads, [t], now)[0]
  {
  }

  /** `print_jthread`, which both `cbThreadStart` and `cbThreadEnd` call
      on the thread concerned: writes the record of a Java thread that the
      runtime names `javaName` (its last name, when it ends). */
  method PrintJThread(log: EventLog, now: int, nativeTid: int, machTid: int, javaName: string)
    modifies log
    ensures log.records == old(log.records) + [JThreadRecord(now, nativeTid, machTid, javaName)]
  {
    log.WriteThread(now, nativeTid, machTid, JavaLabel + javaName);
  }
}
