/** The entries every part of the store exchanges, the order on internal keys, and the
    one-line meaning of the whole database: the newest entry with a sequence number no
    larger than the snapshot's.

    A user key is represented by its position in the user comparator's order.  A comparator
    orders a countable set of byte strings, and every countable total order embeds in the
    rationals, so `real` with `<` stands for any comparator; two byte strings the comparator
    calls equal share a position.  Module BytewiseOrder shows the embedding for the default
    comparator. */
module Keys {

  datatype Option<+T> = None | Some(value: T)

  type Byte = n: nat | n < 0x100
  type Bytes = seq<Byte>

  type UserKey = real
  type Value = Bytes

  /** kTypeDeletion = 0 and kTypeValue = 1. */
  datatype Kind = Deletion | Put

  datatype InternalKey = InternalKey(user: UserKey, seqno: SequenceNumber, kind: Kind)

  datatype Entry = Entry(key: InternalKey, value: Value)

  /** kMaxSequenceNumber: eight bits of the packed 64 are left for the kind. */
  const MAX_SEQUENCE: nat := 0x100_0000_0000_0000 - 1

  type SequenceNumber = n: nat | n <= MAX_SEQUENCE

  function KindByte(k: Kind): nat {
    if k.Put? then 1 else 0
  }

  /** PackSequenceAndType */
  function Tag(seqno: SequenceNumber, kind: Kind): nat {
    seqno * 256 + KindByte(kind)
  }

  /** InternalKeyComparator::Compare(a, b) < 0: user keys increasing, then tags decreasing. */
  predicate Before(a: InternalKey, b: InternalKey) {
    a.user < b.user || (a.user == b.user && Tag(a.seqno, a.kind) > Tag(b.seqno, b.kind))
  }

  /** The internal key a lookup or a DBIter seek starts from; kValueTypeForSeek is Put. */
  function SeekKey(user: UserKey, seqno: SequenceNumber): InternalKey {
    InternalKey(user, seqno, Put)
  }

  predicate SortedEntries(es: seq<Entry>) {
    forall i, j :: 0 <= i < j < |es| ==> Before(es[i].key, es[j].key)
  }

  lemma BeforeTrichotomy(a: InternalKey, b: InternalKey)
    ensures Before(a, b) || Before(b, a) || a == b
    ensures !(Before(a, b) && Before(b, a))
    ensures !Before(a, a)
  {
  }

  // ---- the meaning of a collection of entries ----

  function ToSet(es: seq<Entry>): set<Entry> {
    set e | e in es
  }

  function Val(e: Entry): Option<Value> {
    if e.key.kind.Put? then Some(e.value) else None
  }

  predicate VisibleAt(e: Entry, user: UserKey, seqno: SequenceNumber) {
    e.key.user == user && e.key.seqno <= seqno
  }

  ghost predicate IsNewest(es: set<Entry>, user: UserKey, seqno: SequenceNumber, e: Entry) {
    && e in es
    && VisibleAt(e, user, seqno)
    && forall d :: d in es && VisibleAt(d, user, seqno) ==> d.key.seqno <= e.key.seqno
  }

  /** What a reader at sequence number `seqno` must see for `user`. */
  ghost function Lookup(es: set<Entry>, user: UserKey, seqno: SequenceNumber): Option<Value> {
    if exists e :: IsNewest(es, user, seqno, e) then
      var e :| IsNewest(es, user, seqno, e);
      Val(e)
    else None
  }

  /** No two entries of one user key share a sequence number. */
  ghost predicate Distinct(es: set<Entry>) {
    forall d, e :: d in es && e in es && d.key.user == e.key.user && d.key.seqno == e.key.seqno ==> d == e
  }

  lemma LookupIsNewest(es: set<Entry>, user: UserKey, seqno: SequenceNumber, e: Entry)
    requires Distinct(es) && IsNewest(es, user, seqno, e)
    ensures Lookup(es, user, seqno) == Val(e)
  {
  }

  lemma LookupOfNothing(es: set<Entry>, user: UserKey, seqno: SequenceNumber)
    requires forall e :: e in es ==> !VisibleAt(e, user, seqno)
    ensures Lookup(es, user, seqno) == None
  {
  }

  lemma {:induction false} NewestExists(es: set<Entry>, user: UserKey, seqno: SequenceNumber, d: Entry) returns (e: Entry)
    requires d in es && VisibleAt(d, user, seqno)
    ensures IsNewest(es, user, seqno, e)
    decreases es
  {
    var rest := es - {d};
    if c :| c in rest && VisibleAt(c, user, seqno) {
      var m := NewestExists(rest, user, seqno, c);
      e := if m.key.seqno >= d.key.seqno then m else d;
      assert es == rest + {d};
    } else {
      e := d;
      assert forall x :: x in es && VisibleAt(x, user, seqno) ==> x == d;
    }
  }

  /** Two collections answer alike when exactly the same entry, if any, is shown by each. */
  lemma LookupsAgree(a: set<Entry>, b: set<Entry>, user: UserKey, seqno: SequenceNumber)
    requires Distinct(a) && Distinct(b)
    requires forall e :: IsNewest(a, user, seqno, e) && e.key.kind.Put? ==> IsNewest(b, user, seqno, e)
    requires forall e :: IsNewest(b, user, seqno, e) && e.key.kind.Put? ==> IsNewest(a, user, seqno, e)
    ensures Lookup(a, user, seqno) == Lookup(b, user, seqno)
  {
    if e :| IsNewest(a, user, seqno, e) && e.key.kind.Put? {
      LookupIsNewest(a, user, seqno, e);
      LookupIsNewest(b, user, seqno, e);
    } else if e :| IsNewest(b, user, seqno, e) && e.key.kind.Put? {
      LookupIsNewest(b, user, seqno, e);
    }
  }

  /** `a` and `b` answer every reader whose sequence number is at least `floor` alike. */
  ghost predicate SameAnswers(a: set<Entry>, b: set<Entry>, floor: SequenceNumber) {
    forall user: UserKey, seqno: SequenceNumber :: floor <= seqno ==> Lookup(a, user, seqno) == Lookup(b, user, seqno)
  }

  /** Entries too new for a reader do not change what the reader sees. */
  lemma NewerEntriesInvisible(es: set<Entry>, more: set<Entry>, user: UserKey, seqno: SequenceNumber)
    requires Distinct(es + more)
    requires forall e :: e in more ==> e.key.seqno > seqno
    ensures Lookup(es + more, user, seqno) == Lookup(es, user, seqno)
  {
    LookupsAgree(es + more, es, user, seqno);
  }
}
