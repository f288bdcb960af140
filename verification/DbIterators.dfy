/** DBIter: over an internal iterator that yields every version of every key, a cursor over the
    user keys that are live at one sequence number, in both directions. */
module DbIterators {
  import opened Keys
  import opened Cursors

  // ---- the list a user of the iterator should see ----

  predicate Visible(e: Entry, seqno: SequenceNumber) {
    e.key.seqno <= seqno
  }

  /** An earlier, that is newer, entry of the same user key is visible. */
  ghost predicate Shadowed(es: seq<Entry>, i: nat, seqno: SequenceNumber)
    requires i < |es|
  {
    exists j :: 0 <= j < i && es[j].key.user == es[i].key.user && Visible(es[j], seqno)
  }

  /** Entry `i` is what a reader sees for its user key. */
  ghost predicate Live(es: seq<Entry>, i: nat, seqno: SequenceNumber)
    requires i < |es|
  {
    Visible(es[i], seqno) && es[i].key.kind.Put? && !Shadowed(es, i, seqno)
  }

  /** The live entries among the first `n`, in order. */
  ghost function LiveUpTo(es: seq<Entry>, n: nat, seqno: SequenceNumber): (r: seq<nat>)
    requires n <= |es|
    ensures |r| <= n
    ensures forall k :: 0 <= k < |r| ==> r[k] < n
  {
    if n == 0 then []
    else LiveUpTo(es, n - 1, seqno) + if Live(es, n - 1, seqno) then [n - 1] else []
  }

  ghost function LiveList(es: seq<Entry>, seqno: SequenceNumber): seq<nat> {
    LiveUpTo(es, |es|, seqno)
  }

  /** How many live entries lie before `n`: the place in the list of the first one from `n` on. */
  ghost function Rank(es: seq<Entry>, n: nat, seqno: SequenceNumber): nat
    requires n <= |es|
  {
    |LiveUpTo(es, n, seqno)|
  }

  lemma {:induction false} LiveUpToMembers(es: seq<Entry>, n: nat, seqno: SequenceNumber)
    requires n <= |es|
    ensures forall k :: 0 <= k < Rank(es, n, seqno) ==> LiveUpTo(es, n, seqno)[k] < n && Live(es, LiveUpTo(es, n, seqno)[k], seqno)
    ensures forall j, k :: 0 <= j < k < Rank(es, n, seqno) ==> LiveUpTo(es, n, seqno)[j] < LiveUpTo(es, n, seqno)[k]
  {
    if n > 0 {
      LiveUpToMembers(es, n - 1, seqno);
    }
  }

  lemma {:induction false} LiveUpToPrefix(es: seq<Entry>, m: nat, n: nat, seqno: SequenceNumber)
    requires m <= n <= |es|
    ensures LiveUpTo(es, m, seqno) <= LiveUpTo(es, n, seqno)
    ensures (forall i :: m <= i < n ==> !Live(es, i, seqno)) ==> LiveUpTo(es, m, seqno) == LiveUpTo(es, n, seqno)
    decreases n
  {
    if m < n {
      LiveUpToPrefix(es, m, n - 1, seqno);
    }
  }

  /** A live entry stands in the list at its rank. */
  lemma LiveAtRank(es: seq<Entry>, i: nat, seqno: SequenceNumber)
    requires i < |es| && Live(es, i, seqno)
    ensures Rank(es, i + 1, seqno) == Rank(es, i, seqno) + 1
    ensures Rank(es, i, seqno) < |LiveList(es, seqno)| && LiveList(es, seqno)[Rank(es, i, seqno)] == i
  {
    LiveUpToPrefix(es, i + 1, |es|, seqno);
  }

  lemma NoneLive(es: seq<Entry>, m: nat, n: nat, seqno: SequenceNumber)
    requires m <= n <= |es|
    requires forall i :: m <= i < n ==> !Live(es, i, seqno)
    ensures Rank(es, m, seqno) == Rank(es, n, seqno)
  {
    LiveUpToPrefix(es, m, n, seqno);
  }

  // ---- what the scanning loops know ----

  ghost predicate SeenBefore(es: seq<Entry>, p: nat, seqno: SequenceNumber, user: UserKey)
    requires p <= |es|
  {
    exists i :: 0 <= i < p && es[i].key.user == user && Visible(es[i], seqno)
  }

  /** Looking for the first live entry from `from` on, the scan has reached `p`.  No live entry
      was passed, and `skipping` and `skip` tell which of the visible entries ahead are hidden. */
  ghost predicate SkipState(es: seq<Entry>, p: nat, from: nat, seqno: SequenceNumber, skipping: bool, skip: UserKey) {
    && p <= |es| && from <= |es|
    && (forall j :: from <= j < p ==> !Live(es, j, seqno))
    && (forall j :: p <= j < |es| && Visible(es[j], seqno) && skipping ==>
          skip <= es[j].key.user && (es[j].key.user == skip ==> j < from || Shadowed(es, j, seqno)))
    && (forall j :: p <= j < |es| && Visible(es[j], seqno) && (j < from || SeenBefore(es, p, seqno, es[j].key.user)) ==>
          skipping && es[j].key.user <= skip)
  }

  /** The least live position from `from` on, or the length. */
  ghost predicate IsNextLive(es: seq<Entry>, from: nat, p: nat, seqno: SequenceNumber) {
    && from <= |es| && p <= |es|
    && (forall j :: from <= j < p ==> !Live(es, j, seqno))
    && (p < |es| ==> from <= p && Live(es, p, seqno))
  }

  /** The greatest live position below `n`, or the length. */
  ghost predicate IsPrevLive(es: seq<Entry>, n: nat, p: nat, seqno: SequenceNumber) {
    && n <= |es| && p <= |es|
    && (p < |es| ==> p < n && Live(es, p, seqno))
    && (forall j :: 0 <= j < n && (p < |es| ==> p < j) ==> !Live(es, j, seqno))
  }

  /** Scanning back from `n` down to `p`: `saved` is the first visible entry met there, if it is
      a value, and no other entry there is live. */
  ghost predicate BackState(es: seq<Entry>, p: nat, n: nat, seqno: SequenceNumber, saved: Option<nat>) {
    && p <= n <= |es|
    && (saved.Some? ==>
          && p <= saved.value < n && Visible(es[saved.value], seqno) && es[saved.value].key.kind.Put?
          && (forall j :: p <= j < saved.value ==> !Visible(es[j], seqno)))
    && (forall j :: p <= j < n && Live(es, j, seqno) ==> saved == Some(j))
  }

  /** From `p` up to the live entry `cur` nothing is visible, and before `p` all keys are smaller. */
  ghost predicate BeforeSaved(es: seq<Entry>, p: nat, cur: nat, seqno: SequenceNumber) {
    && p <= cur < |es|
    && (forall j :: p <= j < cur ==> !Visible(es[j], seqno))
    && (forall j :: 0 <= j < p ==> es[j].key.user < es[cur].key.user)
  }

  lemma UsersIncrease(es: seq<Entry>, i: nat, j: nat)
    requires SortedEntries(es) && i <= j < |es|
    ensures es[i].key.user <= es[j].key.user
  {
    if i < j {
      assert Before(es[i].key, es[j].key);
    }
  }

  lemma SkipsInvisible(es: seq<Entry>, p: nat, from: nat, seqno: SequenceNumber, skipping: bool, skip: UserKey)
    requires SkipState(es, p, from, seqno, skipping, skip) && p < |es| && !Visible(es[p], seqno)
    ensures SkipState(es, p + 1, from, seqno, skipping, skip)
  {
    assert forall user :: SeenBefore(es, p + 1, seqno, user) ==> SeenBefore(es, p, seqno, user);
  }

  lemma SkipsHidden(es: seq<Entry>, p: nat, from: nat, seqno: SequenceNumber, skip: UserKey)
    requires SkipState(es, p, from, seqno, true, skip) && p < |es| && Visible(es[p], seqno) && es[p].key.user <= skip
    ensures SkipState(es, p + 1, from, seqno, true, skip)
  {
    forall j | p + 1 <= j < |es| && Visible(es[j], seqno) && SeenBefore(es, p + 1, seqno, es[j].key.user)
      ensures es[j].key.user <= skip
    {
      if es[j].key.user != es[p].key.user {
        assert SeenBefore(es, p, seqno, es[j].key.user);
      }
    }
  }

  lemma SkipsDeletion(es: seq<Entry>, p: nat, from: nat, seqno: SequenceNumber, skipping: bool, skip: UserKey)
    requires SortedEntries(es)
    requires SkipState(es, p, from, seqno, skipping, skip) && p < |es| && Visible(es[p], seqno) && es[p].key.kind.Deletion?
    ensures SkipState(es, p + 1, from, seqno, true, es[p].key.user)
  {
    forall j | p + 1 <= j < |es| && Visible(es[j], seqno)
      ensures es[p].key.user <= es[j].key.user
      ensures j < from || SeenBefore(es, p + 1, seqno, es[j].key.user) ==> es[j].key.user <= es[p].key.user
    {
      UsersIncrease(es, p, j);
      if j < from || SeenBefore(es, p, seqno, es[j].key.user) {
        assert skipping && es[j].key.user <= skip && skip <= es[p].key.user;
      }
    }
  }

  lemma FoundLive(es: seq<Entry>, p: nat, from: nat, seqno: SequenceNumber, skipping: bool, skip: UserKey)
    requires SkipState(es, p, from, seqno, skipping, skip) && p < |es|
    requires Visible(es[p], seqno) && es[p].key.kind.Put? && !(skipping && es[p].key.user <= skip)
    ensures IsNextLive(es, from, p, seqno)
  {
    assert !SeenBefore(es, p, seqno, es[p].key.user);
  }

  lemma NothingFound(es: seq<Entry>, from: nat, seqno: SequenceNumber, skipping: bool, skip: UserKey)
    requires SkipState(es, |es|, from, seqno, skipping, skip)
    ensures IsNextLive(es, from, |es|, seqno)
  {
  }

  lemma BackOverVisible(es: seq<Entry>, p: nat, n: nat, seqno: SequenceNumber, saved: Option<nat>)
    requires SortedEntries(es) && 0 < p && BackState(es, p, n, seqno, saved) && Visible(es[p - 1], seqno)
    requires saved.Some? ==> es[p - 1].key.user >= es[saved.value].key.user
    ensures BackState(es, p - 1, n, seqno, if es[p - 1].key.kind.Put? then Some(p - 1) else None)
  {
    if saved.Some? {
      UsersIncrease(es, p - 1, saved.value);
      assert Shadowed(es, saved.value, seqno);
    }
  }

  /** The scan stops where a smaller visible key begins, or at the start. */
  lemma BackFound(es: seq<Entry>, p: nat, n: nat, seqno: SequenceNumber, m: nat)
    requires SortedEntries(es) && BackState(es, p, n, seqno, Some(m))
    requires p > 0 ==> es[p - 1].key.user < es[m].key.user
    ensures IsPrevLive(es, n, m, seqno) && BeforeSaved(es, p, m, seqno)
  {
    forall j | 0 <= j < p ensures es[j].key.user < es[m].key.user {
      UsersIncrease(es, j, p - 1);
    }
    assert Live(es, m, seqno);
  }

  lemma StartAfter(es: seq<Entry>, p: nat, cur: nat, seqno: SequenceNumber)
    requires SortedEntries(es) && cur < |es| && Live(es, cur, seqno)
    requires p == cur || BeforeSaved(es, p, cur, seqno)
    ensures SkipState(es, p, cur + 1, seqno, true, es[cur].key.user)
  {
    forall j | p <= j < |es| && Visible(es[j], seqno)
      ensures cur <= j && es[cur].key.user <= es[j].key.user
      ensures es[j].key.user == es[cur].key.user ==> j < cur + 1 || Shadowed(es, j, seqno)
      ensures SeenBefore(es, p, seqno, es[j].key.user) ==> es[j].key.user <= es[cur].key.user
    {
      UsersIncrease(es, cur, j);
      if i :| 0 <= i < p && es[i].key.user == es[j].key.user && Visible(es[i], seqno) {
        UsersIncrease(es, i, cur);
      }
    }
  }

  /** A seek lands behind every visible entry of smaller keys and before all of the target's. */
  lemma StartAtSeek(es: seq<Entry>, target: UserKey, seqno: SequenceNumber)
    requires SortedEntries(es)
    ensures
      var p := SeekPosition(es, SeekKey(target, seqno));
      && SkipState(es, p, p, seqno, false, 0.0)
      && forall i :: 0 <= i < |es| && Visible(es[i], seqno) ==> (i < p <==> es[i].key.user < target)
  {
    var p := SeekPosition(es, SeekKey(target, seqno));
    forall i | 0 <= i < |es| && Visible(es[i], seqno) ensures i < p <==> es[i].key.user < target {
      if i >= p {
        SortedFrom(es, SeekKey(target, seqno), i);
      }
    }
  }

  datatype Direction = Forward | Reverse

  class DbIter {
    const iter: Cursor
    const seqno: SequenceNumber
    var direction: Direction
    var valid: bool
    var savedKey: UserKey
    var savedValue: Value
    ghost var cur: nat    // the live entry the iterator is at; the number of entries when not valid

    /** Moving forward, the cursor is at the entry.  Moving backward it is before all entries of
        the saved key, and what lies between is not visible. */
    ghost predicate Ok()
      reads this, iter
    {
      && iter.Ok()
      && cur <= |iter.entries|
      && (valid <==> cur < |iter.entries|)
      && (valid ==>
            && Live(iter.entries, cur, seqno)
            && match direction
               case Forward => iter.at == cur
               case Reverse =>
                 && savedKey == iter.entries[cur].key.user
                 && savedValue == iter.entries[cur].value
                 && BeforeSaved(iter.entries, StepForth(iter.entries, iter.at), cur, seqno))
    }

    /** The place in the list of live user keys; the length of the list when not valid. */
    ghost function Place(): (k: nat)
      requires Ok()
      reads this, iter
    {
      Rank(iter.entries, cur, seqno)
    }

    ghost function Keys(): (r: seq<nat>)
      ensures forall k :: 0 <= k < |r| ==> r[k] < |iter.entries|
    {
      LiveList(iter.entries, seqno)
    }

    constructor (cursor: Cursor, at: SequenceNumber)
      requires cursor.Ok()
      ensures Ok() && !valid && iter == cursor && seqno == at
    {
      iter, seqno := cursor, at;
      direction, valid, savedKey, savedValue, cur := Forward, false, 0.0, [], |cursor.entries|;
    }

    function Key(): (k: UserKey)
      requires Ok() && valid
      reads this, iter
    {
      if direction.Forward? then iter.Current().key.user else savedKey
    }

    function CurrentValue(): (v: Value)
      requires Ok() && valid
      reads this, iter
    {
      if direction.Forward? then iter.Current().value else savedValue
    }

    method FindNextUserEntry(skipping0: bool, skip0: UserKey, ghost from: nat)
      requires iter.Ok() && direction.Forward?
      requires SkipState(iter.entries, iter.at, from, seqno, skipping0, skip0)
      modifies this, iter
      ensures Ok() && IsNextLive(iter.entries, from, cur, seqno)
    {
      hide SkipState, SortedEntries;
      ghost var es := iter.entries;
      var skipping, skip := skipping0, skip0;
      while iter.Valid()
        invariant iter.Ok() && direction.Forward?
        invariant SkipState(es, iter.at, from, seqno, skipping, skip)
        decreases |es| - iter.at
      {
        var e := iter.Current();
        if e.key.seqno <= seqno {
          match e.key.kind {
            case Deletion =>
              SkipsDeletion(es, iter.at, from, seqno, skipping, skip);
              skip, skipping := e.key.user, true;
            case Put =>
              if skipping && e.key.user <= skip {
                SkipsHidden(es, iter.at, from, seqno, skip);
              } else {
                FoundLive(es, iter.at, from, seqno, skipping, skip);
                valid, cur := true, iter.at;
                return;
              }
          }
        } else {
          SkipsInvisible(es, iter.at, from, seqno, skipping, skip);
        }
        iter.Next();
      }
      NothingFound(es, from, seqno, skipping, skip);
      valid, cur := false, |es|;
    }

    method FindPrevUserEntry(ghost n: nat)
      requires iter.Ok() && direction.Reverse? && n == StepForth(iter.entries, iter.at)
      modifies this, iter
      ensures Ok() && IsPrevLive(iter.entries, n, cur, seqno)
    {
      hide SortedEntries;
      ghost var es := iter.entries;
      ghost var saved: Option<nat> := None;
      var kind := Deletion;
      while iter.Valid()
        invariant iter.Ok() && direction.Reverse?
        invariant BackState(es, StepForth(es, iter.at), n, seqno, saved)
        invariant saved.Some? <==> kind.Put?
        invariant saved.Some? ==> savedKey == es[saved.value].key.user && savedValue == es[saved.value].value
        decreases StepForth(es, iter.at)
      {
        var e := iter.Current();
        if e.key.seqno <= seqno {
          if kind.Put? && e.key.user < savedKey {
            break;
          }
          BackOverVisible(es, iter.at + 1, n, seqno, saved);
          kind := e.key.kind;
          if kind.Deletion? {
            savedKey, savedValue, saved := 0.0, [], None;
          } else {
            savedKey, savedValue, saved := e.key.user, e.value, Some(iter.at);
          }
        }
        iter.Prev();
      }
      if kind.Deletion? {
        valid, savedKey, savedValue, direction, cur := false, 0.0, [], Forward, |es|;
      } else {
        BackFound(es, StepForth(es, iter.at), n, seqno, saved.value);
        valid, cur := true, saved.value;
      }
    }

    method Seek(target: UserKey)
      requires Ok()
      modifies this, iter
      ensures Ok()
      ensures forall k :: 0 <= k < |Keys()| ==> (k < Place() <==> iter.entries[Keys()[k]].key.user < target)
    {
      direction, savedValue := Forward, [];
      iter.Seek(SeekKey(target, seqno));
      ghost var from := iter.at;
      StartAtSeek(iter.entries, target, seqno);
      if iter.Valid() {
        FindNextUserEntry(false, 0.0, from);
      } else {
        valid, cur := false, |iter.entries|;
      }
      PlacedAtNext(from);
      LiveUpToMembers(iter.entries, |iter.entries|, seqno);
      LiveUpToPrefix(iter.entries, from, |iter.entries|, seqno);
      LiveUpToMembers(iter.entries, from, seqno);
      BeyondRank(iter.entries, from, seqno);
    }

    method SeekToFirst()
      requires Ok()
      modifies this, iter
      ensures Ok() && Place() == 0
    {
      direction, savedValue := Forward, [];
      iter.SeekToFirst();
      if iter.Valid() {
        FindNextUserEntry(false, 0.0, 0);
      } else {
        valid, cur := false, |iter.entries|;
      }
      PlacedAtNext(0);
    }

    method SeekToLast()
      requires Ok()
      modifies this, iter
      ensures Ok() && Place() == if |Keys()| == 0 then 0 else |Keys()| - 1
    {
      direction, savedValue := Reverse, [];
      iter.SeekToLast();
      FindPrevUserEntry(|iter.entries|);
      PlacedBefore(|iter.entries|);
    }

    method Next()
      requires Ok() && valid
      modifies this, iter
      ensures Ok() && Place() == old(Place()) + 1
    {
      ghost var from := cur + 1;
      LiveAtRank(iter.entries, cur, seqno);
      if direction == Reverse {
        direction := Forward;
        if !iter.Valid() {
          iter.SeekToFirst();
        } else {
          iter.Next();
        }
      } else {
        savedKey := iter.Current().key.user;
      }
      // Turning round never runs off the end: the saved entry lies ahead.
      assert iter.Valid();
      StartAfter(iter.entries, iter.at, cur, seqno);
      FindNextUserEntry(true, savedKey, from);
      PlacedAtNext(from);
    }

    method Prev()
      requires Ok() && valid
      modifies this, iter
      ensures Ok() && Place() == if old(Place()) == 0 then |Keys()| else old(Place()) - 1
    {
      ghost var es, n := iter.entries, cur;
      LiveAtRank(es, cur, seqno);
      if direction == Forward {
        savedKey := iter.Current().key.user;
        while true
          invariant iter.Ok() && iter.Valid() && iter.at <= n && direction.Forward? && valid && cur == n
          invariant savedKey == es[n].key.user && es[iter.at].key.user == savedKey
          invariant forall j :: iter.at <= j < n ==> es[j].key.user == savedKey
          decreases iter.at
        {
          iter.Prev();
          if !iter.Valid() {
            NoneLive(es, 0, n, seqno);
            valid, savedKey, savedValue, cur := false, 0.0, [], |es|;
            return;
          }
          UsersIncrease(es, iter.at, n);
          if iter.Current().key.user < savedKey {
            break;
          }
        }
        direction := Reverse;
      }
      ghost var p := StepForth(es, iter.at);
      NoneLive(es, p, n, seqno);
      FindPrevUserEntry(p);
      PlacedBefore(p);
    }

    lemma PlacedAtNext(from: nat)
      requires Ok() && IsNextLive(iter.entries, from, cur, seqno)
      ensures Place() == Rank(iter.entries, from, seqno)
    {
      if cur < |iter.entries| {
        NoneLive(iter.entries, from, cur, seqno);
      } else {
        NoneLive(iter.entries, from, |iter.entries|, seqno);
      }
    }

    lemma PlacedBefore(n: nat)
      requires Ok() && IsPrevLive(iter.entries, n, cur, seqno)
      ensures Place() == if Rank(iter.entries, n, seqno) == 0 then |Keys()| else Rank(iter.entries, n, seqno) - 1
    {
      if cur < |iter.entries| {
        LiveAtRank(iter.entries, cur, seqno);
        NoneLive(iter.entries, cur + 1, n, seqno);
      } else {
        NoneLive(iter.entries, 0, n, seqno);
      }
    }
  }

  lemma BeyondRank(es: seq<Entry>, m: nat, seqno: SequenceNumber)
    requires m <= |es|
    ensures forall k :: Rank(es, m, seqno) <= k < |LiveList(es, seqno)| ==> LiveList(es, seqno)[k] >= m
  {
    forall k | Rank(es, m, seqno) <= k < |LiveList(es, seqno)| ensures LiveList(es, seqno)[k] >= m {
      LiveUpToMembers(es, |es|, seqno);
      var i := LiveList(es, seqno)[k];
      LiveAtRank(es, i, seqno);
      if i < m {
        LiveUpToPrefix(es, i + 1, m, seqno);
      }
    }
  }

  // ---- the list is what lookups say ----

  lemma LiveIsNewest(es: seq<Entry>, i: nat, seqno: SequenceNumber)
    requires SortedEntries(es) && i < |es| && Visible(es[i], seqno) && !Shadowed(es, i, seqno)
    ensures IsNewest(ToSet(es), es[i].key.user, seqno, es[i])
  {
    forall j | 0 <= j < |es| && VisibleAt(es[j], es[i].key.user, seqno) ensures es[j].key.seqno <= es[i].key.seqno {
      assert i < j ==> Before(es[i].key, es[j].key);
    }
  }

  lemma NewestIsUnshadowed(es: seq<Entry>, i: nat, seqno: SequenceNumber)
    requires SortedEntries(es) && Distinct(ToSet(es)) && i < |es|
    requires IsNewest(ToSet(es), es[i].key.user, seqno, es[i])
    ensures !Shadowed(es, i, seqno)
  {
    forall j | 0 <= j < i && es[j].key.user == es[i].key.user ensures !Visible(es[j], seqno) {
      assert es[j] in ToSet(es) && Before(es[j].key, es[i].key);
    }
  }

  /** The keys the iterator goes through, with their values, are exactly the keys a lookup at its
      sequence number finds, with the values it finds. */
  lemma LiveListIsLookup(es: seq<Entry>, user: UserKey, value: Value, seqno: SequenceNumber)
    requires SortedEntries(es) && Distinct(ToSet(es))
    ensures
      && (forall k :: 0 <= k < |LiveList(es, seqno)| ==> LiveList(es, seqno)[k] < |es|)
      && (Lookup(ToSet(es), user, seqno) == Some(value) <==>
          exists k :: 0 <= k < |LiveList(es, seqno)| && es[LiveList(es, seqno)[k]].key.user == user && es[LiveList(es, seqno)[k]].value == value)
  {
    var all, list := ToSet(es), LiveList(es, seqno);
    LiveUpToMembers(es, |es|, seqno);
    if k :| 0 <= k < |list| && es[list[k]].key.user == user && es[list[k]].value == value {
      LiveIsNewest(es, list[k], seqno);
      LookupIsNewest(all, user, seqno, es[list[k]]);
    }
    if Lookup(all, user, seqno) == Some(value) {
      var e :| IsNewest(all, user, seqno, e) && Val(e) == Some(value);
      var i :| 0 <= i < |es| && es[i] == e;
      NewestIsUnshadowed(es, i, seqno);
      LiveAtRank(es, i, seqno);
    }
  }
}
