/** The memtable, the immutable memtable and the version as three layers of entries, each
    newer than the next, and how each step of the store moves entries between them. */
module Layers {
  import opened Keys
  import opened Versions
  import opened History

  ghost predicate NewerSet(a: set<Entry>, b: set<Entry>) {
    forall x, y | x in a && y in b && x.key.user == y.key.user :: x.key.seqno > y.key.seqno
  }

  ghost predicate Layered(mem: set<Entry>, imm: set<Entry>, disk: set<Entry>, ops: seq<Op>) {
    && mem + imm + disk <= EntriesOf(ops)
    && NewerSet(mem, imm) && NewerSet(mem, disk) && NewerSet(imm, disk)
  }

  // ----- Reading through the layers -------------------------------------------------------------

  function Verdict(state: SaverState): Option<Blob> {
    if state.Found? then Some(state.value) else None
  }

  /** A hit in a newer run decides. */
  lemma HitInRun(run: seq<Entry>, rest: set<Entry>, u: UserKey, s: nat)
    requires Sorted(run) && NewerSet(Elements(run), rest) && UniqueSeqs(Elements(run) + rest)
    requires !RunGet(run, u, s).NotFound?
    ensures Answers(Elements(run) + rest, u, s, Verdict(RunGet(run, u, s)))
  {
    SeekFindsNewest(run, u, s);
    var hit := run[LowerBound(run, SeekKey(u, s))];
    assert hit in Elements(run);
    assert IsNewest(Elements(run) + rest, u, s, hit);
    AnswerFromNewest(Elements(run) + rest, u, s, hit);
  }

  /** A miss in a run leaves the decision to the older layers. */
  lemma MissInRun(run: seq<Entry>, rest: set<Entry>, u: UserKey, s: nat, r: Option<Blob>)
    requires Sorted(run) && RunGet(run, u, s).NotFound? && Answers(rest, u, s, r)
    ensures Answers(Elements(run) + rest, u, s, r)
  {
    SeekFindsNewest(run, u, s);
    forall e ensures IsNewest(Elements(run) + rest, u, s, e) <==> IsNewest(rest, u, s, e) {
      assert e in Elements(run) ==> e in run;
    }
  }

  // ----- Writing ----------------------------------------------------------------------------------

  ghost predicate NewestOfAll(e: Entry, es: set<Entry>) {
    forall x | x in es :: x.key.seqno < e.key.seqno
  }

  lemma AddedAnswer(es: set<Entry>, e: Entry, u: UserKey, s: nat, r: Option<Blob>)
    requires NewestOfAll(e, es)
    ensures Answers(es + {e}, u, s, r) <==>
            if Visible(e, u, s) then r == (if e.key.kind == Value then Some(e.value) else None)
                else Answers(es, u, s, r)
  {
    if Visible(e, u, s) {
      assert IsNewest(es + {e}, u, s, e);
      forall x | IsNewest(es + {e}, u, s, x) ensures x == e {}
    } else {
      forall x ensures IsNewest(es + {e}, u, s, x) <==> IsNewest(es, u, s, x) {}
    }
  }

  lemma WriteKeepsReads(hist: set<Entry>, all: set<Entry>, e: Entry, floor: nat)
    requires all <= hist && NewestOfAll(e, hist) && SameReads(hist, all, floor)
    ensures SameReads(hist + {e}, all + {e}, floor)
  {
    forall u, s, r | floor <= s ensures Answers(hist + {e}, u, s, r) <==> Answers(all + {e}, u, s, r) {
      AddedAnswer(hist, e, u, s, r);
      AddedAnswer(all, e, u, s, r);
    }
  }

  lemma WriteKeepsLayers(mem: set<Entry>, imm: set<Entry>, disk: set<Entry>, ops: seq<Op>, op: Op)
    requires Layered(mem, imm, disk, ops)
    ensures var e := EntryOf(ops + [op], |ops|);
            NewestOfAll(e, EntriesOf(ops)) && EntriesOf(ops + [op]) == EntriesOf(ops) + {e}
            && Layered(mem + {e}, imm, disk, ops + [op])
  {
    AppendOne(ops, op);
  }

  // ----- Compacting -------------------------------------------------------------------------------

  /** Replacing the oldest layer by one that answers alike leaves all reads alike. */
  lemma ReplaceOldest(upper: set<Entry>, disk: set<Entry>, disk': set<Entry>, floor: nat)
    requires NewerSet(upper, disk) && disk' <= disk && UniqueSeqs(upper + disk) && SameReads(disk, disk', floor)
    ensures SameReads(upper + disk, upper + disk', floor)
  {
    forall u, s, r | floor <= s ensures Answers(upper + disk, u, s, r) <==> Answers(upper + disk', u, s, r) {
      if w :| w in upper && Visible(w, u, s) {
        UpperDecides(upper, disk, u, s, w, r);
        UpperDecides(upper, disk', u, s, w, r);
      } else {
        LowerDecides(upper, disk, u, s, r);
        LowerDecides(upper, disk', u, s, r);
      }
    }
  }

  lemma UpperDecides(upper: set<Entry>, disk: set<Entry>, u: UserKey, s: nat, w: Entry, r: Option<Blob>)
    requires NewerSet(upper, disk) && w in upper && Visible(w, u, s)
    ensures Answers(upper + disk, u, s, r) <==> Answers(upper, u, s, r)
  {
    forall e ensures IsNewest(upper + disk, u, s, e) <==> IsNewest(upper, u, s, e) {
      if IsNewest(upper, u, s, e) {
        assert w.key.seqno <= e.key.seqno;
      }
    }
  }

  lemma LowerDecides(upper: set<Entry>, disk: set<Entry>, u: UserKey, s: nat, r: Option<Blob>)
    requires forall w | w in upper :: !Visible(w, u, s)
    ensures Answers(upper + disk, u, s, r) <==> Answers(disk, u, s, r)
  {
    forall e ensures IsNewest(upper + disk, u, s, e) <==> IsNewest(disk, u, s, e) {}
  }

  lemma SameReadsTransitive(a: set<Entry>, b: set<Entry>, c: set<Entry>, floor: nat, floor': nat)
    requires SameReads(a, b, floor) && SameReads(b, c, floor') && floor <= floor'
    ensures SameReads(a, c, floor')
  {
    forall u, s, r | floor' <= s ensures Answers(a, u, s, r) <==> Answers(c, u, s, r) {
      assert Answers(a, u, s, r) <==> Answers(b, u, s, r);
    }
  }
}
