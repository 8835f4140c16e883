/** Crash atomicity: a log that is cut off at any byte gives back a prefix of the write groups
    that went into it, whole groups only. */
module Crash {
  import opened Coding
  import opened Log
  import opened LogFragments
  import opened LogRecords
  import LogCuts
  import opened WriteBatches
  import opened Recovery

  /** Groups of updates whose sequence numbers count up from `first`, within the widths of a
      batch header. */
  predicate Numbered(first: nat, groups: seq<seq<Update>>)
    decreases |groups|
  {
    groups == [] || (|groups[0]| < 0x8000_0000 && 0 < first && first + |groups[0]| < 0x1_0000_0000_0000_0000
                     && Numbered(first + |groups[0]|, groups[1..]))
  }

  /** The log records of the groups. */
  function RecordsOf(first: nat, groups: seq<seq<Update>>): (records: seq<Bytes>)
    requires Numbered(first, groups)
    ensures |records| == |groups|
    decreases |groups|
  {
    if groups == [] then [] else [Rep(first, groups[0])] + RecordsOf(first + |groups[0]|, groups[1..])
  }

  function UpdatesOf(groups: seq<seq<Update>>): seq<Update> {
    if groups == [] then [] else groups[0] + UpdatesOf(groups[1..])
  }

  lemma {:induction false} RecordsOfPrefix(first: nat, groups: seq<seq<Update>>, k: nat)
    requires Numbered(first, groups) && k <= |groups|
    ensures Numbered(first, groups[..k]) && RecordsOf(first, groups[..k]) == RecordsOf(first, groups)[..k]
    decreases |groups|
  {
    if k > 0 {
      RecordsOfPrefix(first + |groups[0]|, groups[1..], k - 1);
      assert groups[..k][1..] == groups[1..][..k - 1];
    }
  }

  lemma {:induction false} UpdatesOfAppend(groups: seq<seq<Update>>, us: seq<Update>)
    ensures UpdatesOf(groups + [us]) == UpdatesOf(groups) + us
  {
    if groups == [] {
      assert [us][1..] == [] && UpdatesOf([us]) == us + UpdatesOf([us][1..]);
    } else {
      UpdatesOfAppend(groups[1..], us);
      assert (groups + [us])[1..] == groups[1..] + [us];
    }
  }

  lemma {:induction false} RecordsOfAppend(first: nat, groups: seq<seq<Update>>, us: seq<Update>)
    requires Numbered(first, groups)
    requires var next := first + |UpdatesOf(groups)|;
             |us| < 0x8000_0000 && 0 < next && next + |us| < 0x1_0000_0000_0000_0000
    ensures Numbered(first, groups + [us])
    ensures RecordsOf(first, groups + [us]) == RecordsOf(first, groups) + [Rep(first + |UpdatesOf(groups)|, us)]
    decreases |groups|
  {
    if groups == [] {
      assert [us][1..] == [];
    } else {
      RecordsOfAppend(first + |groups[0]|, groups[1..], us);
      assert (groups + [us])[1..] == groups[1..] + [us];
    }
  }

  lemma {:induction false} NumberedFits(first: nat, groups: seq<seq<Update>>)
    requires Numbered(first, groups) && groups != []
    ensures first + |UpdatesOf(groups)| < 0x1_0000_0000_0000_0000
    decreases |groups|
  {
    if |groups| == 1 {
      assert UpdatesOf(groups[1..]) == [];
    } else {
      NumberedFits(first + |groups[0]|, groups[1..]);
    }
  }

  /** Recovery of records that are read without a report. */
  function Replay(paranoid: bool, records: seq<Bytes>, acc: Recovered): Recovered {
    if records == [] || !acc.ok then acc
    else
      var (next, stop) := Apply(paranoid, records[0], acc);
      if stop then next else Replay(paranoid, records[1..], next)
  }

  lemma {:induction false} RecoverIsReplay(log: Input, paranoid: bool, s: Scan, records: seq<Bytes>, acc: Recovered)
    requires InFile(log, s) && ReadAll(log, s) == Reading(records, [])
    ensures Recover(log, paranoid, s, acc) == Replay(paranoid, records, acc)
    decreases |records|
  {
    var r := NextRecord(log, s, [], false);
    LogCuts.ReadAllUnfold(log, s);
    RecoverUnfold(log, paranoid, s, acc);
    assert r.drops == [];
    assert Note(paranoid, [], acc) == acc by { assert acc.reports + [] == acc.reports; }
    if r.record.Some? && acc.ok {
      var (next, stop) := Apply(paranoid, r.record.value, acc);
      assert records[1..] == ReadAll(log, r.scan).records;
      if !stop {
        RecoverIsReplay(log, paranoid, r.scan, records[1..], next);
      }
    }
  }

  function LastSequence(max: nat, first: nat, groups: seq<seq<Update>>): nat {
    if groups == [] || first + |UpdatesOf(groups)| <= max + 1 then max else first + |UpdatesOf(groups)| - 1
  }

  lemma AddedByConcat(first: nat, us: seq<Update>, vs: seq<Update>)
    ensures AddedBy(first, us + vs) == AddedBy(first, us) + AddedBy(first + |us|, vs)
  {
  }

  lemma ApplyWellFormed(paranoid: bool, rep: Bytes, us: seq<Update>, acc: Recovered)
    requires |rep| >= HEADER && CountOf(rep) == |us| && IterationOf(rep) == Iteration(us, true)
    requires acc.ok && 0 < SequenceOf(rep) + |us| <= 0x1_0000_0000_0000_0000
    ensures var last := SequenceOf(rep) + |us| - 1;
            Apply(paranoid, rep, acc) == (acc.(added := acc.added + AddedBy(SequenceOf(rep), us),
                                               maxSequence := if last > acc.maxSequence then last else acc.maxSequence),
                                                   false)
  {
  }

  /** What the recovery has after a group. */
  function AfterGroup(first: nat, us: seq<Update>, acc: Recovered): Recovered {
    acc.(added := acc.added + AddedBy(first, us),
         maxSequence := if first + |us| > acc.maxSequence + 1 then first + |us| - 1 else acc.maxSequence)
  }

  lemma ApplyGroup(paranoid: bool, first: nat, us: seq<Update>, acc: Recovered)
    requires acc.ok && |us| < 0x8000_0000 && 0 < first && first + |us| < 0x1_0000_0000_0000_0000
    ensures Apply(paranoid, Rep(first, us), acc) == (AfterGroup(first, us, acc), false)
  {
    RepRoundTrip(first, us);
    ApplyWellFormed(paranoid, Rep(first, us), us, acc);
  }

  lemma ReplayStep(paranoid: bool, record: Bytes, records: seq<Bytes>, acc: Recovered, next: Recovered)
    requires acc.ok && Apply(paranoid, record, acc) == (next, false)
    ensures Replay(paranoid, [record] + records, acc) == Replay(paranoid, records, next)
  {
    assert ([record] + records)[1..] == records;
  }

  /** What the recovery has after all of the groups. */
  function AfterGroups(first: nat, groups: seq<seq<Update>>, acc: Recovered): Recovered {
    acc.(added := acc.added + AddedBy(first, UpdatesOf(groups)), maxSequence :=
        LastSequence(acc.maxSequence, first, groups))
  }

  lemma GroupThenGroups(first: nat, us: seq<Update>, rest: seq<seq<Update>>, acc: Recovered)
    requires 0 < first
    ensures AfterGroups(first + |us|, rest, AfterGroup(first, us, acc)) == AfterGroups(first, [us] + rest, acc)
  {
    var all := UpdatesOf(rest);
    assert ([us] + rest)[1..] == rest;
    assert UpdatesOf([us] + rest) == us + all;
    AddedByConcat(first, us, all);
    assert (acc.added + AddedBy(first, us)) + AddedBy(first + |us|, all) == acc.added + AddedBy(first, us + all);
    assert rest == [] ==> all == [];
  }

  lemma {:induction false} ReplayGroups(paranoid: bool, first: nat, groups: seq<seq<Update>>, acc: Recovered)
    requires acc.ok && Numbered(first, groups)
    ensures Replay(paranoid, RecordsOf(first, groups), acc) == AfterGroups(first, groups, acc)
    decreases |groups|
  {
    if groups == [] {
      assert acc.added + AddedBy(first, []) == acc.added;
    } else {
      var us, rest := groups[0], groups[1..];
      var next := AfterGroup(first, us, acc);
      ApplyGroup(paranoid, first, us, acc);
      ReplayStep(paranoid, Rep(first, us), RecordsOf(first + |us|, rest), acc, next);
      ReplayGroups(paranoid, first + |us|, rest, next);
      GroupThenGroups(first, us, rest, acc);
      assert [us] + rest == groups;
    }
  }

  /** Whatever the byte at which the log of some write groups is cut off, recovery gets the
      updates of the groups that are complete, under their sequence numbers, and nothing of
      the next one; the largest sequence number is the last of those groups; nothing is
      reported, so paranoid checks make no difference. */
  lemma CrashKeepsPrefix(step: Step, paranoid: bool, first: nat, groups: seq<seq<Update>>, cut: nat, max: nat)
    requires Numbered(first, groups) && cut <= |Stream(step, RecordsOf(first, groups))|
    ensures var records := RecordsOf(first, groups);
            var k := LogCuts.Fits(records, 0, cut);
            && Recover(Input(step, true, Stream(step, records)[..cut]), paranoid, START, Recovered(true, [], max, []))
               == Recovered(true, AddedBy(first, UpdatesOf(groups[..k])), LastSequence(max, first, groups[..k]), [])
            && |Stream(step, records[..k])| <= cut
            && (k < |groups| ==> cut < |Stream(step, records[..k + 1])|)
  {
    var records := RecordsOf(first, groups);
    var log := Input(step, true, Stream(step, records)[..cut]);
    var k := LogCuts.Fits(records, 0, cut);
    LogCuts.CutLogReads(step, true, records, cut);
    RecordsOfPrefix(first, groups, k);
    RecoverIsReplay(log, paranoid, START, records[..k], Recovered(true, [], max, []));
    ReplayGroups(paranoid, first, groups[..k], Recovered(true, [], max, []));
    assert [] + AddedBy(first, UpdatesOf(groups[..k])) == AddedBy(first, UpdatesOf(groups[..k]));
  }
}
