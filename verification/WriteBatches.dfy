/** Write batches: updates packed behind an eight-byte sequence number and a four-byte count. */
module WriteBatches {
  import opened Keys
  import opened Coding

  const HEADER: nat := 12
  const TWO31: nat := 0x8000_0000

  datatype Update = Update(kind: Kind, key: Bytes, value: Bytes)

  // ---- the representation ----

  function UpdateBytes(u: Update): Bytes {
    match u.kind
    case Put => [KindByte(Put)] + SliceBytes(u.key) + SliceBytes(u.value)
    case Deletion => [KindByte(Deletion)] + SliceBytes(u.key)
  }

  function UpdatesBytes(us: seq<Update>): Bytes {
    if us == [] then [] else UpdatesBytes(us[..|us| - 1]) + UpdateBytes(us[|us| - 1])
  }

  function Rep(seqno: nat, us: seq<Update>): (r: Bytes)
    ensures |r| >= HEADER
  {
    EncodeFixed64(seqno) + EncodeFixed32(|us| % 0x1_0000_0000) + UpdatesBytes(us)
  }

  /** What a batch can say: deletions have no value, and lengths fit 32 bits. */
  predicate UpdateOk(u: Update) {
    |u.key| < 0x1_0000_0000 && |u.value| < 0x1_0000_0000 && (u.kind.Deletion? ==> u.value == [])
  }

  ghost predicate BatchOk(seqno: nat, us: seq<Update>) {
    seqno < 0x1_0000_0000_0000_0000 && |us| < TWO31 && forall i :: 0 <= i < |us| ==> UpdateOk(us[i])
  }

  function Sequence(rep: Bytes): (n: nat)
    requires |rep| >= HEADER
    ensures n < 0x1_0000_0000_0000_0000
  {
    DecodeFixed64(rep)
  }

  function Count(rep: Bytes): Word
    requires |rep| >= HEADER
  {
    DecodeFixed32(rep[8..])
  }

  // ---- Iterate ----

  /** The updates a handler is given, and the error iteration ends with. */
  datatype Iteration = Iteration(updates: seq<Update>, error: Option<string>)

  datatype Step = Bad(message: string) | Step(update: Update, rest: Bytes)

  function TakeUpdate(b: Bytes): (s: Step)
    requires b != []
    ensures s.Step? ==> |s.rest| < |b|
  {
    if b[0] == KindByte(Put) then
      match SliceOf(b[1..])
      case None => Bad("bad WriteBatch Put")
      case Some(key) =>
        (match SliceOf(key.rest)
         case None => Bad("bad WriteBatch Put")
         case Some(value) => Step(Update(Put, key.data, value.data), value.rest))
    else if b[0] == KindByte(Deletion) then
      match SliceOf(b[1..])
      case None => Bad("bad WriteBatch Delete")
      case Some(key) => Step(Update(Deletion, key.data, []), key.rest)
    else Bad("unknown WriteBatch tag")
  }

  function TakeAll(b: Bytes): Iteration
    decreases |b|
  {
    if b == [] then Iteration([], None)
    else
      match TakeUpdate(b)
      case Bad(message) => Iteration([], Some(message))
      case Step(u, rest) => var r := TakeAll(rest); r.(updates := [u] + r.updates)
  }

  function Iterated(rep: Bytes): Iteration {
    if |rep| < HEADER then Iteration([], Some("malformed WriteBatch (too small)"))
    else
      var r := TakeAll(rep[HEADER..]);
      if r.error.None? && |r.updates| != Count(rep) then r.(error := Some("WriteBatch has wrong count")) else r
  }

  // ---- round trip ----

  lemma UpdateBack(u: Update, rest: Bytes)
    requires UpdateOk(u)
    ensures TakeUpdate(UpdateBytes(u) + rest) == Step(u, rest)
  {
    hide SliceBytes, SliceOf;
    var b := UpdateBytes(u) + rest;
    match u.kind {
      case Put =>
        assert b[1..] == SliceBytes(u.key) + (SliceBytes(u.value) + rest);
        SliceBack(u.key, SliceBytes(u.value) + rest);
        SliceBack(u.value, rest);
      case Deletion =>
        assert b[1..] == SliceBytes(u.key) + rest;
        SliceBack(u.key, rest);
    }
  }

  lemma {:induction false} UpdatesBack(us: seq<Update>, rest: Bytes)
    requires forall i :: 0 <= i < |us| ==> UpdateOk(us[i])
    ensures TakeAll(UpdatesBytes(us) + rest) == TakeAll(rest).(updates := us + TakeAll(rest).updates)
    decreases |us|
  {
    hide UpdateBytes, TakeUpdate, UpdateOk;
    if us == [] {
      assert UpdatesBytes(us) + rest == rest && us + TakeAll(rest).updates == TakeAll(rest).updates;
    } else {
      var before, u := us[..|us| - 1], us[|us| - 1];
      var tail := UpdateBytes(u) + rest;
      UpdatesBack(before, tail);
      UpdateBack(u, rest);
      assert UpdatesBytes(us) + rest == UpdatesBytes(before) + tail;
      assert tail != [];
      assert before + ([u] + TakeAll(rest).updates) == us + TakeAll(rest).updates;
    }
  }

  lemma HeaderBack(seqno: nat, us: seq<Update>)
    requires BatchOk(seqno, us)
    ensures Sequence(Rep(seqno, us)) == seqno && Count(Rep(seqno, us)) == |us|
    ensures Rep(seqno, us)[HEADER..] == UpdatesBytes(us)
  {
    hide EncodeFixed32, DecodeFixed32, EncodeFixed64, DecodeFixed64, UpdatesBytes;
    var rep, tail := Rep(seqno, us), EncodeFixed32(|us|) + UpdatesBytes(us);
    assert rep == EncodeFixed64(seqno) + tail;
    Fixed64RoundTrip(seqno, tail);
    assert rep[8..] == tail;
    Fixed32RoundTrip(|us|, UpdatesBytes(us));
  }

  /** Tags on disk: 1 for a put, 0 for a deletion. */
  lemma TagsOnDisk(u: Update)
    ensures UpdateBytes(u)[0] == if u.kind.Put? then 1 else 0
  {
  }

  /** A batch with a wrong count, or with something else behind its updates, still gives its updates,
      and an error. */
  lemma BrokenBatch(seqno: nat, count: Word, us: seq<Update>, tail: Bytes)
    requires seqno < 0x1_0000_0000_0000_0000 && forall i :: 0 <= i < |us| ==> UpdateOk(us[i])
    ensures
      var r := Iterated(EncodeFixed64(seqno) + EncodeFixed32(count) + UpdatesBytes(us) + tail);
      && (tail == [] ==> r == Iteration(us, if count == |us| then None else Some("WriteBatch has wrong count")))
      && (tail != [] && tail[0] > 1 ==> r == Iteration(us, Some("unknown WriteBatch tag")))
      && (tail != [] && tail[0] <= 1 && SliceOf(tail[1..]).None? ==>
            r == Iteration(us, Some(if tail[0] == 1 then "bad WriteBatch Put" else "bad WriteBatch Delete")))
  {
    hide Count, UpdatesBytes, SliceOf, UpdateOk, TakeAll, EncodeFixed32, EncodeFixed64, Iterated;
    var body := UpdatesBytes(us) + tail;
    var header := EncodeFixed64(seqno) + EncodeFixed32(count);
    assert header + UpdatesBytes(us) + tail == header + body;
    UpdatesBack(us, tail);
    TailEnds(tail);
    assert us + [] == us;
    IteratesBehind(seqno, count, body);
  }

  lemma IteratesBehind(seqno: nat, count: Word, body: Bytes)
    requires seqno < 0x1_0000_0000_0000_0000
    ensures
      var r := TakeAll(body);
      Iterated(EncodeFixed64(seqno) + EncodeFixed32(count) + body) ==
        if r.error.None? && |r.updates| != count then r.(error := Some("WriteBatch has wrong count")) else r
  {
    hide DecodeFixed32, EncodeFixed32, EncodeFixed64, TakeAll;
    var rep := EncodeFixed64(seqno) + EncodeFixed32(count) + body;
    assert rep[8..] == EncodeFixed32(count) + body && rep[HEADER..] == body;
    Fixed32RoundTrip(count, body);
  }

  lemma TailEnds(tail: Bytes)
    ensures tail == [] ==> TakeAll(tail) == Iteration([], None)
    ensures tail != [] && tail[0] > 1 ==> TakeAll(tail) == Iteration([], Some("unknown WriteBatch tag"))
    ensures tail != [] && tail[0] <= 1 && SliceOf(tail[1..]).None? ==>
      TakeAll(tail) == Iteration([], Some(if tail[0] == 1 then "bad WriteBatch Put" else "bad WriteBatch Delete"))
  {
    hide SliceOf;
  }

  /** Iterating over a batch gives its updates in order, and no error. */
  lemma BatchRoundTrip(seqno: nat, us: seq<Update>)
    requires BatchOk(seqno, us)
    ensures Iterated(Rep(seqno, us)) == Iteration(us, None) && Sequence(Rep(seqno, us)) == seqno
  {
    hide TakeUpdate, Rep, UpdatesBytes;
    HeaderBack(seqno, us);
    UpdatesBack(us, []);
    assert UpdatesBytes(us) + [] == UpdatesBytes(us) && us + [] == us;
  }

  lemma {:induction false} UpdatesBoth(a: seq<Update>, b: seq<Update>)
    ensures UpdatesBytes(a + b) == UpdatesBytes(a) + UpdatesBytes(b)
    decreases |b|
  {
    hide UpdateBytes;
    if b == [] {
      assert a + b == a;
    } else {
      UpdatesBoth(a, b[..|b| - 1]);
      assert (a + b)[..|a + b| - 1] == a + b[..|b| - 1];
    }
  }

  lemma Pieces(seqno: nat, us: seq<Update>)
    requires BatchOk(seqno, us)
    ensures
      var rep := Rep(seqno, us);
      rep[..8] == EncodeFixed64(seqno) && Count(rep) == |us| && rep[HEADER..] == UpdatesBytes(us)
  {
    hide EncodeFixed64, EncodeFixed32, DecodeFixed32, UpdatesBytes;
    HeaderBack(seqno, us);
  }

  lemma RepIs(seqno: nat, us: seq<Update>, n: Word)
    requires n == |us|
    ensures Rep(seqno, us) == EncodeFixed64(seqno) + EncodeFixed32(n) + UpdatesBytes(us)
  {
    hide EncodeFixed64, EncodeFixed32, UpdatesBytes;
    assert n % 0x1_0000_0000 == n;
  }

  /** More updates go to the end and are counted in the header. */
  lemma Extended(seqno: nat, us: seq<Update>, more: seq<Update>, n: Word)
    requires n == |us| + |more|
    ensures Rep(seqno, us + more) == EncodeFixed64(seqno) + EncodeFixed32(n) + UpdatesBytes(us) + UpdatesBytes(more)
  {
    hide EncodeFixed64, EncodeFixed32, UpdatesBytes, Rep;
    UpdatesBoth(us, more);
    RepIs(seqno, us + more, n);
    var header := EncodeFixed64(seqno) + EncodeFixed32(n);
    assert header + (UpdatesBytes(us) + UpdatesBytes(more)) == header + UpdatesBytes(us) + UpdatesBytes(more);
  }

  lemma OneUpdate(u: Update)
    ensures UpdatesBytes([u]) == UpdateBytes(u)
  {
    hide UpdateBytes;
    assert [u][..0] == [];
    assert UpdatesBytes([u][..0]) == [];
  }

  // ---- the class ----

  class WriteBatch {
    var rep: Bytes
    ghost var seqno: nat
    ghost var updates: seq<Update>

    ghost predicate Valid()
      reads this
    {
      BatchOk(seqno, updates) && rep == Rep(seqno, updates)
    }

    constructor ()
      ensures Valid() && seqno == 0 && updates == []
    {
      rep := EncodeFixed64(0) + EncodeFixed32(0);
      seqno, updates := 0, [];
      assert Rep(0, []) == EncodeFixed64(0) + EncodeFixed32(0);
    }

    method Clear()
      modifies this
      ensures Valid() && seqno == 0 && updates == []
    {
      rep := EncodeFixed64(0) + EncodeFixed32(0);
      seqno, updates := 0, [];
      assert Rep(0, []) == EncodeFixed64(0) + EncodeFixed32(0);
    }

    method SetSequence(n: nat)
      requires Valid() && n < 0x1_0000_0000_0000_0000
      modifies this
      ensures Valid() && seqno == n && updates == old(updates)
    {
      hide EncodeFixed64, EncodeFixed32, UpdatesBytes;
      rep := EncodeFixed64(n) + rep[8..];
      seqno := n;
      assert rep == Rep(n, updates);
    }

    /** SetCount, for `more` updates about to be appended. */
    method AddToCount(n: nat, ghost more: seq<Update>)
      requires Valid() && n == |more| && |updates| + n < TWO31
      modifies this`rep
      ensures rep + UpdatesBytes(more) == Rep(seqno, updates + more)
    {
      hide BatchOk, Rep, Count, UpdatesBytes, EncodeFixed32, EncodeFixed64;
      Pieces(seqno, updates);
      Extended(seqno, updates, more, |updates| + n);
      rep := rep[..8] + EncodeFixed32(Count(rep) + n) + rep[HEADER..];
    }

    method Put(key: Bytes, value: Bytes)
      requires Valid() && BatchOk(seqno, updates + [Update(Kind.Put, key, value)])
      modifies this
      ensures Valid() && seqno == old(seqno) && updates == old(updates) + [Update(Kind.Put, key, value)]
    {
      ghost var u := Update(Kind.Put, key, value);
      OneUpdate(u);
      hide Rep, SliceBytes, UpdatesBytes;
      AddToCount(1, [u]);
      ghost var head := rep;
      rep := rep + [KindByte(Kind.Put)];
      rep := PutLengthPrefixedSlice(rep, key);
      rep := PutLengthPrefixedSlice(rep, value);
      assert rep == head + UpdateBytes(u);
      updates := updates + [u];
    }

    method Delete(key: Bytes)
      requires Valid() && BatchOk(seqno, updates + [Update(Deletion, key, [])])
      modifies this
      ensures Valid() && seqno == old(seqno) && updates == old(updates) + [Update(Deletion, key, [])]
    {
      ghost var u := Update(Deletion, key, []);
      OneUpdate(u);
      hide Rep, SliceBytes, UpdatesBytes;
      AddToCount(1, [u]);
      ghost var head := rep;
      rep := rep + [KindByte(Deletion)];
      rep := PutLengthPrefixedSlice(rep, key);
      assert rep == head + UpdateBytes(u);
      updates := updates + [u];
    }

    /** WriteBatchInternal::Append: how the batches of a group become one. */
    method Append(src: WriteBatch)
      requires Valid() && src.Valid() && BatchOk(seqno, updates + src.updates)
      modifies this
      ensures Valid() && seqno == old(seqno) && updates == old(updates) + old(src.updates)
    {
      ghost var more := src.updates;
      Pieces(src.seqno, more);
      hide Rep, Count, UpdatesBytes;
      var tail := src.rep[HEADER..];
      AddToCount(Count(src.rep), more);
      rep := rep + tail;
      updates := updates + more;
    }
  }

  method ReadUpdate(b: Bytes) returns (s: Step)
    requires b != []
    ensures s == TakeUpdate(b)
  {
    hide SliceOf;
    if b[0] == KindByte(Put) {
      s := Bad("bad WriteBatch Put");
      var key := GetLengthPrefixedSlice(b[1..]);
      if key.Some? {
        var value := GetLengthPrefixedSlice(key.value.rest);
        if value.Some? {
          s := Step(Update(Put, key.value.data, value.value.data), value.value.rest);
        }
      }
    } else if b[0] == KindByte(Deletion) {
      var key := GetLengthPrefixedSlice(b[1..]);
      s := if key.None? then Bad("bad WriteBatch Delete") else Step(Update(Deletion, key.value.data, []), key.value.rest);
    } else {
      s := Bad("unknown WriteBatch tag");
    }
  }

  /** WriteBatch::Iterate; the updates are what the handler was called with, in order. */
  method Iterate(rep: Bytes) returns (handled: seq<Update>, error: Option<string>)
    ensures Iterated(rep) == Iteration(handled, error)
  {
    handled := [];
    if |rep| < HEADER {
      return handled, Some("malformed WriteBatch (too small)");
    }
    var input := rep[HEADER..];
    ghost var all := TakeAll(input);
    hide TakeUpdate;
    assert [] + all.updates == all.updates;
    while input != []
      invariant all.error == TakeAll(input).error && all.updates == handled + TakeAll(input).updates
      decreases |input|
    {
      ghost var before, rest := handled, TakeAll(input).updates;
      var s := ReadUpdate(input);
      if s.Bad? {
        assert handled + [] == handled;
        return handled, Some(s.message);
      }
      handled := handled + [s.update];
      input := s.rest;
      assert before + ([s.update] + TakeAll(input).updates) == handled + TakeAll(input).updates;
    }
    assert handled + [] == handled;
    error := if |handled| != Count(rep) then Some("WriteBatch has wrong count") else None;
  }
}
