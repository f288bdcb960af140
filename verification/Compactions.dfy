/** DoCompactionWork: which entries of the merged inputs survive, the loop that writes the
    outputs, and what dropping entries does to the answers readers get. */
module Compactions {
  import opened Keys
  import opened Versions

  // ---- the drop rules ----

  /** current_user_key and last_sequence_for_key. */
  datatype Scan = Scan(user: Option<UserKey>, lastSeqno: SequenceNumber)

  const SCAN_START := Scan(None, MAX_SEQUENCE)

  /** last_sequence_for_key once the loop has looked at the user key of the next entry. */
  function LastFor(scan: Scan, user: UserKey): nat {
    if scan.user == Some(user) then scan.lastSeqno else MAX_SEQUENCE
  }

  function InRange(f: File, user: UserKey): bool {
    f.smallest.user <= user <= f.largest.user
  }

  /** No file two or more levels below the compaction's level can hold the user key. */
  predicate IsBaseLevel(v: Version, level: nat, user: UserKey) {
    forall l, f :: level + 2 <= l < |v| && f in v[l] ==> !InRange(f, user)
  }

  predicate Obsolete(e: Entry, v: Version, level: nat, smallest: SequenceNumber) {
    e.key.kind.Deletion? && e.key.seqno <= smallest && IsBaseLevel(v, level, e.key.user)
  }

  /** The entries the loop adds to its outputs. */
  function Kept(es: seq<Entry>, scan: Scan, v: Version, level: nat, smallest: SequenceNumber): seq<Entry> {
    if es == [] then []
    else
      var e := es[0];
      var rest := Kept(es[1..], Scan(Some(e.key.user), e.key.seqno), v, level, smallest);
      if LastFor(scan, e.key.user) <= smallest || Obsolete(e, v, level, smallest) then rest
      else [e] + rest
  }

  // ---- what is dropped, without the scan ----

  /** Some entry that no reader at or above `smallest` can miss already hides `e`. */
  ghost predicate Hidden(es: set<Entry>, e: Entry, smallest: SequenceNumber) {
    exists d :: d in es && d.key.user == e.key.user && e.key.seqno < d.key.seqno <= smallest
  }

  ghost predicate Survives(es: set<Entry>, e: Entry, v: Version, level: nat, smallest: SequenceNumber) {
    e in es && !Hidden(es, e, smallest) && !Obsolete(e, v, level, smallest)
  }

  /** The one-pass scan keeps exactly the entries that survive. */
  lemma KeptIsSurvivors(es: seq<Entry>, v: Version, level: nat, smallest: SequenceNumber)
    requires SortedEntries(es) && Distinct(ToSet(es)) && smallest < MAX_SEQUENCE
    ensures forall e :: e in Kept(es, SCAN_START, v, level, smallest) <==> Survives(ToSet(es), e, v, level, smallest)
  {
    KeptFrom(es, 0, SCAN_START, v, level, smallest);
    assert es[0..] == es;
  }

  ghost predicate ScanAt(es: seq<Entry>, i: nat, scan: Scan)
    requires i <= |es|
  {
    if i == 0 then scan == SCAN_START else scan == Scan(Some(es[i - 1].key.user), es[i - 1].key.seqno)
  }

  lemma {:induction false} KeptFrom(es: seq<Entry>, i: nat, scan: Scan, v: Version, level: nat, smallest: SequenceNumber)
    requires SortedEntries(es) && Distinct(ToSet(es)) && smallest < MAX_SEQUENCE
    requires i <= |es| && ScanAt(es, i, scan)
    ensures forall e :: e in Kept(es[i..], scan, v, level, smallest) <==>
      e in es[i..] && Survives(ToSet(es), e, v, level, smallest)
    decreases |es| - i
  {
    if i < |es| {
      var e, next := es[i], Scan(Some(es[i].key.user), es[i].key.seqno);
      KeptFrom(es, i + 1, next, v, level, smallest);
      ScanSeesHidden(es, i, scan, smallest);
      assert es[i..][1..] == es[i + 1..];
      KeptStep(es[i..], scan, v, level, smallest);
      SurvivorsStep(es, i, Kept(es[i + 1..], next, v, level, smallest), v, level, smallest);
    }
  }

  lemma KeptStep(es: seq<Entry>, scan: Scan, v: Version, level: nat, smallest: SequenceNumber)
    requires es != []
    ensures
      var rest := Kept(es[1..], Scan(Some(es[0].key.user), es[0].key.seqno), v, level, smallest);
      Kept(es, scan, v, level, smallest) ==
        if LastFor(scan, es[0].key.user) <= smallest || Obsolete(es[0], v, level, smallest) then rest else [es[0]] + rest
  {
  }

  lemma SurvivorsStep(es: seq<Entry>, i: nat, rest: seq<Entry>, v: Version, level: nat, smallest: SequenceNumber)
    requires i < |es|
    requires forall e :: e in rest <==> e in es[i + 1..] && Survives(ToSet(es), e, v, level, smallest)
    ensures
      var kept := if Survives(ToSet(es), es[i], v, level, smallest) then [es[i]] + rest else rest;
      forall e :: e in kept <==> e in es[i..] && Survives(ToSet(es), e, v, level, smallest)
  {
    assert es[i..] == [es[i]] + es[i + 1..];
  }

  /** Comparing with the previous entry alone decides whether an entry is hidden. */
  lemma ScanSeesHidden(es: seq<Entry>, i: nat, scan: Scan, smallest: SequenceNumber)
    requires SortedEntries(es) && Distinct(ToSet(es)) && smallest < MAX_SEQUENCE
    requires i < |es| && ScanAt(es, i, scan)
    ensures LastFor(scan, es[i].key.user) <= smallest <==> Hidden(ToSet(es), es[i], smallest)
  {
    var e := es[i];
    if Hidden(ToSet(es), e, smallest) {
      var d :| d in es && d.key.user == e.key.user && e.key.seqno < d.key.seqno <= smallest;
      var j :| 0 <= j < |es| && es[j] == d;
      assert j < i;
      assert j < i - 1 ==> Before(d.key, es[i - 1].key);
      assert Before(es[i - 1].key, e.key);
    } else if i > 0 {
      var d := es[i - 1];
      assert d in es && Before(d.key, e.key);
    }
  }

  lemma {:induction false} KeptIsSorted(es: seq<Entry>, scan: Scan, v: Version, level: nat, smallest: SequenceNumber)
    requires SortedEntries(es)
    ensures SortedEntries(Kept(es, scan, v, level, smallest))
    ensures forall e :: e in Kept(es, scan, v, level, smallest) ==> e in es
  {
    if es != [] {
      KeptIsSorted(es[1..], Scan(Some(es[0].key.user), es[0].key.seqno), v, level, smallest);
      assert forall e :: e in es[1..] ==> Before(es[0].key, e.key);
    }
  }

  // ---- what dropping does to readers ----

  /** A tombstone dropped at its base level must not uncover an older value that stays. */
  ghost predicate TombstonesUncoverNothing(inputs: set<Entry>, rest: set<Entry>, v: Version, level: nat, smallest: SequenceNumber) {
    forall e, d ::
      && e in inputs && !Hidden(inputs, e, smallest) && Obsolete(e, v, level, smallest)
      && IsNewest(rest, e.key.user, smallest, d) && d.key.kind.Put?
      ==> d.key.seqno > e.key.seqno
  }

  /** Replacing the inputs by the survivors preserves every answer a reader at or above
      `smallest` gets exactly when no dropped tombstone uncovers a value. */
  lemma CompactionPreservesAnswers(inputs: set<Entry>, outputs: set<Entry>, rest: set<Entry>, v: Version, level: nat, smallest: SequenceNumber)
    requires Distinct(rest + inputs)
    requires forall e :: e in outputs <==> Survives(inputs, e, v, level, smallest)
    ensures SameAnswers(rest + inputs, rest + outputs, smallest) <==>
      TombstonesUncoverNothing(inputs, rest, v, level, smallest)
  {
    if TombstonesUncoverNothing(inputs, rest, v, level, smallest) {
      forall user: UserKey, seqno: SequenceNumber | smallest <= seqno
        ensures Lookup(rest + inputs, user, seqno) == Lookup(rest + outputs, user, seqno)
      {
        AnswerKept(inputs, outputs, rest, v, level, smallest, user, seqno);
      }
    } else {
      var e, d :|
        && e in inputs && !Hidden(inputs, e, smallest) && Obsolete(e, v, level, smallest)
        && IsNewest(rest, e.key.user, smallest, d) && d.key.kind.Put?
        && d.key.seqno <= e.key.seqno;
      var user := e.key.user;
      assert IsNewest(rest + inputs, user, smallest, e);
      LookupIsNewest(rest + inputs, user, smallest, e);
      assert forall x :: x in outputs && VisibleAt(x, user, smallest) ==> x in inputs && x.key.seqno <= e.key.seqno;
      assert forall x :: x in outputs && VisibleAt(x, user, smallest) && x != e ==> Hidden(inputs, x, smallest);
      assert IsNewest(rest + outputs, user, smallest, d);
      LookupIsNewest(rest + outputs, user, smallest, d);
    }
  }

  lemma AnswerKept(inputs: set<Entry>, outputs: set<Entry>, rest: set<Entry>, v: Version, level: nat, smallest: SequenceNumber,
                   user: UserKey, seqno: SequenceNumber)
    requires Distinct(rest + inputs)
    requires forall e :: e in outputs <==> Survives(inputs, e, v, level, smallest)
    requires TombstonesUncoverNothing(inputs, rest, v, level, smallest)
    requires smallest <= seqno
    ensures Lookup(rest + inputs, user, seqno) == Lookup(rest + outputs, user, seqno)
  {
    var before, after := rest + inputs, rest + outputs;
    assert after <= before;
    forall x | IsNewest(before, user, seqno, x) && x.key.kind.Put? ensures IsNewest(after, user, seqno, x) {
      assert !Hidden(inputs, x, smallest);
    }
    forall x | IsNewest(after, user, seqno, x) && x.key.kind.Put? ensures IsNewest(before, user, seqno, x) {
      var m := NewestExists(before, user, seqno, x);
      if m !in after {
        DroppedNewestIsOlder(inputs, rest, v, level, smallest, user, m, x);
      }
    }
    LookupsAgree(before, after, user, seqno);
  }

  /** If the newest entry `m` was dropped, a value that stays shown is not older than it. */
  lemma DroppedNewestIsOlder(inputs: set<Entry>, rest: set<Entry>, v: Version, level: nat, smallest: SequenceNumber,
                             user: UserKey, m: Entry, x: Entry)
    requires TombstonesUncoverNothing(inputs, rest, v, level, smallest)
    requires m in inputs && m.key.user == user && !Hidden(inputs, m, smallest) && Obsolete(m, v, level, smallest)
    requires x.key.user == user && x.key.kind.Put?
    requires x in rest || Survives(inputs, x, v, level, smallest)
    requires x in rest ==> forall y :: y in rest && VisibleAt(y, user, smallest) ==> y.key.seqno <= x.key.seqno
    ensures m.key.seqno <= x.key.seqno
  {
    if x in rest && x.key.seqno <= smallest {
      assert IsNewest(rest, user, smallest, x);
    }
  }

  /** Entries newer than everything there is, from memtables or flushed ones, are uncovered by no
      tombstone of the inputs. */
  lemma NewerUncoverNothing(inputs: set<Entry>, rest: set<Entry>, rest': set<Entry>, base: Version, level: nat, smallest: SequenceNumber)
    requires TombstonesUncoverNothing(inputs, rest, base, level, smallest) && rest <= rest'
    requires forall x, e :: x in rest' && x !in rest && e in inputs && x.key.user == e.key.user ==> x.key.seqno > e.key.seqno
    ensures TombstonesUncoverNothing(inputs, rest', base, level, smallest)
  {
    forall e, d |
      && e in inputs && !Hidden(inputs, e, smallest) && Obsolete(e, base, level, smallest)
      && IsNewest(rest', e.key.user, smallest, d) && d.key.kind.Put?
      ensures d.key.seqno > e.key.seqno
    {
      if d in rest {
        assert IsNewest(rest, e.key.user, smallest, d);
      }
    }
  }
}
