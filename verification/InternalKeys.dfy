/** Internal keys as byte strings: a user key, then eight bytes of sequence number and kind.  What
    the rest of the store says about keys as positions holds of these strings. */
module InternalKeys {
  import opened Keys
  import opened Coding
  import opened BytewiseOrder
  import opened Blocks
  import Cursors
  import Tables
  import BlockIterators

  /** PackSequenceAndType(kMaxSequenceNumber, kValueTypeForSeek) */
  const EARLIEST_TAG: nat := MAX_SEQUENCE * 256 + 1

  /** AppendInternalKey */
  function EncodeKey(user: Bytes, seqno: SequenceNumber, kind: Kind): Bytes {
    user + EncodeFixed64(Tag(seqno, kind))
  }

  /** ExtractUserKey.  Shorter strings fail an assertion there. */
  function UserOf(k: Bytes): Bytes {
    if |k| >= 8 then k[..|k| - 8] else []
  }

  function TagOf(k: Bytes): (tag: nat)
    ensures tag < 0x1_0000_0000_0000_0000
  {
    if |k| >= 8 then DecodeFixed64(k[|k| - 8..]) else 0
  }

  function SeqnoOf(k: Bytes): SequenceNumber {
    TagOf(k) / 256
  }

  /** ParseInternalKey accepts it. */
  predicate IsInternalKey(k: Bytes) {
    |k| >= 8 && TagOf(k) % 256 <= 1
  }

  /** InternalKeyComparator::Compare(a, b) < 0 */
  predicate KeyLess(a: Bytes, b: Bytes) {
    Less(UserOf(a), UserOf(b)) || (UserOf(a) == UserOf(b) && TagOf(a) > TagOf(b))
  }

  lemma KeyLessIsTransitive()
    ensures BlockIterators.Transitive(KeyLess)
  {
    forall a, b, c | KeyLess(a, b) && KeyLess(b, c) ensures KeyLess(a, c) {
      if Less(UserOf(a), UserOf(b)) && Less(UserOf(b), UserOf(c)) {
        LessIsTransitive(UserOf(a), UserOf(b), UserOf(c));
      }
    }
  }

  // ---- positions ----

  function Position(k: Bytes): InternalKey {
    InternalKey(Rank(UserOf(k)), SeqnoOf(k), if TagOf(k) % 256 == 0 then Deletion else Put)
  }

  function EntryOf(kv: KeyValue): Entry {
    Entry(Position(kv.key), kv.value)
  }

  lemma PositionTag(k: Bytes)
    requires IsInternalKey(k)
    ensures Tag(Position(k).seqno, Position(k).kind) == TagOf(k)
  {
  }

  /** The comparator on byte strings is the order on positions. */
  lemma PositionEmbeds(a: Bytes, b: Bytes)
    requires IsInternalKey(a) && IsInternalKey(b)
    ensures KeyLess(a, b) <==> Before(Position(a), Position(b))
    ensures a == b <==> Position(a) == Position(b)
  {
    PositionTag(a);
    PositionTag(b);
    RankEmbeds(UserOf(a), UserOf(b));
    if Position(a) == Position(b) {
      Fixed64Determines(a[|a| - 8..], b[|b| - 8..]);
      assert a == UserOf(a) + a[|a| - 8..] && b == UserOf(b) + b[|b| - 8..];
    }
  }

  lemma TagParts(seqno: SequenceNumber, kind: Kind)
    ensures Tag(seqno, kind) / 256 == seqno && Tag(seqno, kind) % 256 == KindByte(kind)
  {
  }

  lemma EncodedKey(user: Bytes, seqno: SequenceNumber, kind: Kind)
    ensures
      var k := EncodeKey(user, seqno, kind);
      && IsInternalKey(k) && UserOf(k) == user && TagOf(k) == Tag(seqno, kind)
      && Position(k) == InternalKey(Rank(user), seqno, kind)
  {
    hide EncodeFixed64, DecodeFixed64, Rank;
    var k := EncodeKey(user, seqno, kind);
    assert Tag(seqno, kind) < 0x1_0000_0000_0000_0000;
    Fixed64RoundTrip(Tag(seqno, kind), []);
    assert k[|user|..] == EncodeFixed64(Tag(seqno, kind)) + [];
    assert k[..|user|] == user;
    TagParts(seqno, kind);
  }

  /** Behind the user key, 1 for a value and 0 for a deletion, then the sequence number, the smallest
      byte first. */
  lemma KeyOnDisk(user: Bytes, seqno: SequenceNumber, kind: Kind)
    ensures
      var k := EncodeKey(user, seqno, kind);
      && |k| == |user| + 8 && k[..|user|] == user
      && k[|user|] == (if kind.Put? then 1 else 0)
      && seqno == k[|user| + 1] as int + 0x100 * k[|user| + 2] as int + 0x1_0000 * k[|user| + 3] as int
                  + 0x100_0000 * (k[|user| + 4] as int + 0x100 * k[|user| + 5] as int + 0x1_0000 * k[|user| + 6] as int + 0x100_0000 * k[|user| + 7] as int)
  {
    hide EncodeFixed64;
    var tag := Tag(seqno, kind);
    var b := EncodeFixed64(tag);
    Fixed64IsLittleEndian(tag);
    assert forall i :: 0 <= i < 8 ==> EncodeKey(user, seqno, kind)[|user| + i] == b[i];
    assert tag == b[0] as int + 0x100 * (tag / 0x100);
    TagParts(seqno, kind);
  }

  // ---- short keys ----

  /** InternalKeyComparator::FindShortestSeparator: the key itself, or a shorter one with a user key
      strictly between and the largest tag. */
  method FindInternalSeparator(start: Bytes, limit: Bytes) returns (separator: Bytes)
    requires IsInternalKey(start)
    ensures IsInternalKey(separator)
    ensures separator == start || (|separator| < |start| && TagOf(separator) == EARLIEST_TAG)
    ensures Tables.Separates(Position(start), Position(separator), Position(limit))
    ensures forall i: nat :: RoomAt(UserOf(start), UserOf(limit), i) && i + 1 < |UserOf(start)| ==>
      UserOf(separator) == UserOf(start)[..i] + [UserOf(start)[i] + 1]
    ensures separator == start || exists i: nat :: RoomAt(UserOf(start), UserOf(limit), i) && i + 1 < |UserOf(start)|
  {
    separator := start;
    var tmp := FindShortestSeparator(UserOf(start), UserOf(limit));
    if |tmp| < |UserOf(start)| && Less(UserOf(start), tmp) {
      separator := EncodeKey(tmp, MAX_SEQUENCE, Put);
      EncodedKey(tmp, MAX_SEQUENCE, Put);
      RankEmbeds(UserOf(start), tmp);
      RankEmbeds(tmp, UserOf(limit));
    }
  }

  /** InternalKeyComparator::FindShortSuccessor */
  method FindInternalSuccessor(key: Bytes) returns (successor: Bytes)
    requires IsInternalKey(key)
    ensures IsInternalKey(successor)
    ensures successor == key || (|successor| < |key| && TagOf(successor) == EARLIEST_TAG)
    ensures Tables.Succeeds(Position(key), Position(successor))
    ensures forall i: nat :: GrowsAt(UserOf(key), i) && i + 1 < |UserOf(key)| ==>
      UserOf(successor) == UserOf(key)[..i] + [UserOf(key)[i] + 1]
    ensures successor == key || exists i: nat :: GrowsAt(UserOf(key), i) && i + 1 < |UserOf(key)|
  {
    successor := key;
    var tmp := FindShortSuccessor(UserOf(key));
    if |tmp| < |UserOf(key)| && Less(UserOf(key), tmp) {
      successor := EncodeKey(tmp, MAX_SEQUENCE, Put);
      EncodedKey(tmp, MAX_SEQUENCE, Put);
      RankEmbeds(UserOf(key), tmp);
    }
  }

  // ---- entries ----

  function Pairs(items: seq<Item>): (r: seq<KeyValue>)
    ensures |r| == |items| && forall i :: 0 <= i < |r| ==> r[i] == items[i].kv
  {
    seq(|items|, i requires 0 <= i < |items| => items[i].kv)
  }

  function Entries(pairs: seq<KeyValue>): (r: seq<Entry>)
    ensures |r| == |pairs| && forall i :: 0 <= i < |r| ==> r[i] == EntryOf(pairs[i])
  {
    seq(|pairs|, i requires 0 <= i < |pairs| => EntryOf(pairs[i]))
  }

  ghost predicate InternalPairs(pairs: seq<KeyValue>) {
    forall kv :: kv in pairs ==> IsInternalKey(kv.key)
  }

  /** Items in the comparator's order are entries in the order of positions. */
  lemma ItemsSorted(items: seq<Item>)
    requires InternalPairs(Pairs(items))
    ensures BlockIterators.SortedItems(KeyLess, items) <==> SortedEntries(Entries(Pairs(items)))
  {
    hide KeyLess, Position, Before, IsInternalKey;
    var es := Entries(Pairs(items));
    forall i, j | 0 <= i < j < |items| ensures KeyLess(items[i].kv.key, items[j].kv.key) <==> Before(es[i].key, es[j].key) {
      assert Pairs(items)[i] in Pairs(items) && Pairs(items)[j] in Pairs(items);
      PositionEmbeds(items[i].kv.key, items[j].kv.key);
    }
  }

  /** A block iterator over a block of internal keys is a cursor over the block's entries: Seek stops
      where the cursor's does.  The other moves are stated alike for both. */
  lemma BlockSeekIsCursorSeek(items: seq<Item>, target: Bytes, i: nat)
    requires InternalPairs(Pairs(items)) && IsInternalKey(target) && BlockIterators.SortedItems(KeyLess, items)
    ensures BlockIterators.IsFirstFrom(KeyLess, items, target, i) <==> i == Cursors.SeekPosition(Entries(Pairs(items)), Position(target))
  {
    hide KeyLess, Position, Before, IsInternalKey;
    ItemsSorted(items);
    var es := Entries(Pairs(items));
    forall j | 0 <= j < |items| ensures KeyLess(items[j].kv.key, target) <==> Before(es[j].key, Position(target)) {
      assert Pairs(items)[j] in Pairs(items);
      PositionEmbeds(items[j].kv.key, target);
    }
    var p := Cursors.SeekPosition(es, Position(target));
    forall j | p <= j < |es| ensures !Before(es[j].key, Position(target)) {
      Cursors.SortedFrom(es, Position(target), j);
    }
    if BlockIterators.IsFirstFrom(KeyLess, items, target, i) {
      Cursors.SeekIs(es, Position(target), i);
    }
  }
}
