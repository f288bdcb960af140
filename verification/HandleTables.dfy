/** The cache's hash table: buckets of chained handles.  A handle is known by its number; what the
    table keeps in each handle is its key, the key's hash and the link to the next in the chain. */
module HandleTables {
  import opened Keys

  type CacheKey = seq<char>
  type Pointer = Option<nat>

  datatype HashLink = HashLink(key: CacheKey, hash: nat, next: Pointer)

  /** Following the links from `p` goes through exactly the handles of `chain`. */
  predicate IsChain(links: seq<HashLink>, p: Pointer, chain: seq<nat>)
    decreases |chain|
  {
    if chain == [] then p == None
    else p == Some(chain[0]) && chain[0] < |links| && IsChain(links, links[chain[0]].next, chain[1..])
  }

  ghost predicate NoDuplicates(s: seq<nat>) {
    forall i, j :: 0 <= i < j < |s| ==> s[i] != s[j]
  }

  lemma {:induction false} ChainUnchanged(links: seq<HashLink>, links': seq<HashLink>, p: Pointer, chain: seq<nat>)
    requires IsChain(links, p, chain) && |links| <= |links'|
    requires forall h :: h in chain && h < |links| ==> links'[h].next == links[h].next
    ensures IsChain(links', p, chain)
    decreases |chain|
  {
    if chain != [] {
      ChainUnchanged(links, links', links[chain[0]].next, chain[1..]);
    }
  }

  lemma {:induction false} ChainAt(links: seq<HashLink>, p: Pointer, chain: seq<nat>, j: nat)
    requires IsChain(links, p, chain) && j <= |chain|
    ensures forall i :: 0 <= i < |chain| ==> chain[i] < |links|
    ensures j < |chain| ==> IsChain(links, links[chain[j]].next, chain[j + 1..])
    ensures (if j == 0 then p else links[chain[j - 1]].next) == if j < |chain| then Some(chain[j]) else None
    decreases |chain|
  {
    if chain != [] {
      var rest := chain[1..];
      ChainAt(links, links[chain[0]].next, rest, if j == 0 then 0 else j - 1);
      assert forall i :: 1 <= i < |chain| ==> chain[i] == rest[i - 1];
    }
  }

  /** Making position `j` of a chain point to `q` joins the front of the chain to what `q` leads to. */
  lemma {:induction false} ChainSpliced(links: seq<HashLink>, p: Pointer, chain: seq<nat>, j: nat, q: Pointer, tail: seq<nat>)
    requires IsChain(links, p, chain) && NoDuplicates(chain) && 0 < j <= |chain|
    requires chain[j - 1] < |links|
    requires
      var links' := links[chain[j - 1] := links[chain[j - 1]].(next := q)];
      IsChain(links', q, tail)
    ensures
      var links' := links[chain[j - 1] := links[chain[j - 1]].(next := q)];
      IsChain(links', p, chain[..j] + tail)
    decreases j
  {
    var links' := links[chain[j - 1] := links[chain[j - 1]].(next := q)];
    var rest := chain[1..];
    assert (chain[..j] + tail)[1..] == chain[1..j] + tail;
    if j == 1 {
      assert chain[1..1] + tail == tail;
    } else {
      assert chain[j - 1] == rest[j - 2];
      ChainSpliced(links, links[chain[0]].next, rest, j - 1, q, tail);
      assert rest[..j - 1] == chain[1..j];
    }
  }

  ghost predicate ChainsOk(links: seq<HashLink>, buckets: seq<Pointer>, chains: seq<seq<nat>>) {
    && 0 < |buckets| == |chains|
    && forall b :: 0 <= b < |buckets| ==> IsChain(links, buckets[b], chains[b]) && NoDuplicates(chains[b])
  }

  /** Chains hold only handles of the table, each in its bucket. */
  ghost predicate InPlace(links: seq<HashLink>, chains: seq<seq<nat>>, contents: map<CacheKey, nat>, hashOf: CacheKey -> nat) {
    forall b: nat, h: nat :: b < |chains| && h in chains[b] ==> IsPlaced(links, |chains|, contents, hashOf, b, h)
  }

  predicate IsPlaced(links: seq<HashLink>, n: nat, contents: map<CacheKey, nat>, hashOf: CacheKey -> nat, b: nat, h: nat) {
    0 < n && InContents(links, contents, h) && hashOf(links[h].key) % n == b
  }

  ghost predicate AllChained(links: seq<HashLink>, chains: seq<seq<nat>>, contents: map<CacheKey, nat>, hashOf: CacheKey -> nat)
    requires 0 < |chains|
  {
    forall k :: k in contents ==> contents[k] in chains[hashOf(k) % |chains|] && contents[k] < |links| && links[contents[k]].key == k
  }

  ghost predicate TableOk(links: seq<HashLink>, buckets: seq<Pointer>, chains: seq<seq<nat>>, contents: map<CacheKey, nat>, hashOf: CacheKey -> nat) {
    && ChainsOk(links, buckets, chains)
    && InPlace(links, chains, contents, hashOf)
    && AllChained(links, chains, contents, hashOf)
  }

  /** Going through the chain of a key's bucket finds the key, or shows that it is not there. */
  lemma KeyIsInItsChain(links: seq<HashLink>, buckets: seq<Pointer>, chains: seq<seq<nat>>, contents: map<CacheKey, nat>,
                        hashOf: CacheKey -> nat, key: CacheKey, b: nat, j: nat)
    requires TableOk(links, buckets, chains, contents, hashOf) && b == hashOf(key) % |chains| && j <= |chains[b]|
    requires forall i :: 0 <= i < |chains[b]| ==> chains[b][i] < |links|
    requires forall i :: 0 <= i < j ==> links[chains[b][i]].key != key
    requires j < |chains[b]| ==> links[chains[b][j]].key == key
    ensures if j < |chains[b]| then key in contents && contents[key] == chains[b][j] else key !in contents
  {
    if j < |chains[b]| {
      assert chains[b][j] in chains[b];
      assert IsPlaced(links, |chains|, contents, hashOf, b, chains[b][j]);
    }
  }

  lemma ChainsGrow(links: seq<HashLink>, links': seq<HashLink>, buckets: seq<Pointer>, chains: seq<seq<nat>>)
    requires ChainsOk(links, buckets, chains) && links <= links'
    ensures ChainsOk(links', buckets, chains)
  {
    forall b | 0 <= b < |buckets| ensures IsChain(links', buckets[b], chains[b]) {
      ChainUnchanged(links, links', buckets[b], chains[b]);
    }
  }

  /** What the table says of handles depends on their keys only. */
  ghost predicate SameKeys(links: seq<HashLink>, links': seq<HashLink>) {
    |links| <= |links'| && forall h :: 0 <= h < |links| ==> links'[h].key == links[h].key
  }

  lemma PlacesStay(links: seq<HashLink>, links': seq<HashLink>, chains: seq<seq<nat>>, contents: map<CacheKey, nat>, hashOf: CacheKey -> nat)
    requires 0 < |chains| && InPlace(links, chains, contents, hashOf) && AllChained(links, chains, contents, hashOf)
    requires SameKeys(links, links')
    ensures InPlace(links', chains, contents, hashOf) && AllChained(links', chains, contents, hashOf)
  {
    forall b: nat, h: nat | b < |chains| && h in chains[b] ensures IsPlaced(links', |chains|, contents, hashOf, b, h) {
      assert IsPlaced(links, |chains|, contents, hashOf, b, h);
    }
  }

  lemma TableGrows(links: seq<HashLink>, links': seq<HashLink>, buckets: seq<Pointer>, chains: seq<seq<nat>>,
                   contents: map<CacheKey, nat>, hashOf: CacheKey -> nat)
    requires TableOk(links, buckets, chains, contents, hashOf) && links <= links'
    ensures TableOk(links', buckets, chains, contents, hashOf)
  {
    hide InPlace, AllChained, ChainsOk;
    assert 0 < |chains| by {
      TableNotEmpty(links, buckets, chains);
    }
    ChainsGrow(links, links', buckets, chains);
    PlacesStay(links, links', chains, contents, hashOf);
  }

  lemma TableNotEmpty(links: seq<HashLink>, buckets: seq<Pointer>, chains: seq<seq<nat>>)
    requires ChainsOk(links, buckets, chains)
    ensures 0 < |buckets| == |chains|
  {
  }

  // ---- changing a chain ----

  /** *ptr = q, where the slot is a bucket or the link of a handle. */
  function StoreLink(links: seq<HashLink>, pred: Pointer, q: Pointer): seq<HashLink>
    requires pred.Some? ==> pred.value < |links|
  {
    if pred.Some? then links[pred.value := links[pred.value].(next := q)] else links
  }

  function StoreBucket(buckets: seq<Pointer>, pred: Pointer, b: nat, q: Pointer): seq<Pointer>
    requires b < |buckets|
  {
    if pred.None? then buckets[b := q] else buckets
  }

  lemma ChainsDisjoint(links: seq<HashLink>, chains: seq<seq<nat>>, contents: map<CacheKey, nat>, hashOf: CacheKey -> nat, b: nat, c: nat, h: nat)
    requires InPlace(links, chains, contents, hashOf) && b < |chains| && c < |chains| && h in chains[b] && h in chains[c]
    ensures b == c
  {
    assert IsPlaced(links, |chains|, contents, hashOf, b, h) && IsPlaced(links, |chains|, contents, hashOf, c, h);
  }

  /** The store replaces what follows position `j` of chain `b` by `tail`, and no other chain. */
  lemma Spliced(links: seq<HashLink>, buckets: seq<Pointer>, chains: seq<seq<nat>>, contents: map<CacheKey, nat>, hashOf: CacheKey -> nat,
                b: nat, j: nat, q: Pointer, tail: seq<nat>)
    requires ChainsOk(links, buckets, chains) && InPlace(links, chains, contents, hashOf)
    requires b < |chains| && j <= |chains[b]|
    requires IsChain(links, q, tail) && NoDuplicates(chains[b][..j] + tail)
    ensures j > 0 ==> chains[b][j - 1] < |links|
    ensures
      var pred := if j > 0 then Some(chains[b][j - 1]) else None;
      ChainsOk(StoreLink(links, pred, q), StoreBucket(buckets, pred, b, q), chains[b := chains[b][..j] + tail])
  {
    var chain := chains[b];
    ChainAt(links, buckets[b], chain, j);
    var pred := if j > 0 then Some(chain[j - 1]) else None;
    var links', buckets' := StoreLink(links, pred, q), StoreBucket(buckets, pred, b, q);
    var chains' := chains[b := chain[..j] + tail];
    forall c: nat | c < |buckets'| ensures IsChain(links', buckets'[c], chains'[c]) && NoDuplicates(chains'[c]) {
      if c != b {
        OthersUntouched(links, chains, contents, hashOf, b, j, c);
        ChainUnchanged(links, links', buckets[c], chains[c]);
      } else if j == 0 {
        assert chain[..0] + tail == tail;
      } else {
        assert chain[j - 1] !in tail by {
          assert (chain[..j] + tail)[j - 1] == chain[j - 1];
          assert forall i :: 0 <= i < |tail| ==> (chain[..j] + tail)[j + i] == tail[i];
        }
        ChainUnchanged(links, links', q, tail);
        ChainSpliced(links, buckets[b], chain, j, q, tail);
      }
    }
  }

  lemma OthersUntouched(links: seq<HashLink>, chains: seq<seq<nat>>, contents: map<CacheKey, nat>, hashOf: CacheKey -> nat, b: nat, j: nat, c: nat)
    requires InPlace(links, chains, contents, hashOf) && b < |chains| && c < |chains| && b != c && j <= |chains[b]|
    ensures j > 0 ==> chains[b][j - 1] !in chains[c]
  {
    if j > 0 && chains[b][j - 1] in chains[c] {
      ChainsDisjoint(links, chains, contents, hashOf, b, c, chains[b][j - 1]);
    }
  }

  predicate InContents(links: seq<HashLink>, contents: map<CacheKey, nat>, h: nat) {
    h < |links| && links[h].key in contents && contents[links[h].key] == h
  }

  // ---- removing ----

  lemma WithoutOne(s: seq<nat>, j: nat)
    requires NoDuplicates(s) && j < |s|
    ensures NoDuplicates(s[..j] + s[j + 1..])
    ensures forall h :: h in s[..j] + s[j + 1..] <==> h in s && h != s[j]
  {
    forall h | h in s && h != s[j] ensures h in s[..j] + s[j + 1..] {
      var i :| 0 <= i < |s| && s[i] == h;
      assert i < j ==> s[..j][i] == h;
      assert i > j ==> s[j + 1..][i - j - 1] == h;
    }
  }

  lemma ChainFacts(links: seq<HashLink>, buckets: seq<Pointer>, chains: seq<seq<nat>>, contents: map<CacheKey, nat>, hashOf: CacheKey -> nat, b: nat, j: nat)
    requires TableOk(links, buckets, chains, contents, hashOf) && b < |chains| && j < |chains[b]|
    ensures 0 < |buckets| == |chains| && ChainsOk(links, buckets, chains) && InPlace(links, chains, contents, hashOf)
    ensures chains[b][j] < |links| && IsChain(links, links[chains[b][j]].next, chains[b][j + 1..])
    ensures IsPlaced(links, |chains|, contents, hashOf, b, chains[b][j]) && NoDuplicates(chains[b])
  {
    ChainAt(links, buckets[b], chains[b], j);
    assert chains[b][j] in chains[b];
  }

  lemma RemovedPlaces(links: seq<HashLink>, links': seq<HashLink>, chains: seq<seq<nat>>, contents: map<CacheKey, nat>, hashOf: CacheKey -> nat,
                      key: CacheKey, b: nat, j: nat)
    requires 0 < |chains| && InPlace(links, chains, contents, hashOf) && AllChained(links, chains, contents, hashOf)
    requires SameKeys(links, links') && b < |chains| && j < |chains[b]| && NoDuplicates(chains[b])
    requires key in contents && contents[key] == chains[b][j]
    ensures
      var chains', contents' := chains[b := chains[b][..j] + chains[b][j + 1..]], contents - {key};
      InPlace(links', chains', contents', hashOf) && AllChained(links', chains', contents', hashOf)
  {
    var chains', contents' := chains[b := chains[b][..j] + chains[b][j + 1..]], contents - {key};
    WithoutOne(chains[b], j);
    var e := chains[b][j];
    assert IsPlaced(links, |chains|, contents, hashOf, b, e);
    forall c: nat, h: nat | c < |chains'| && h in chains'[c] ensures IsPlaced(links', |chains'|, contents', hashOf, c, h) {
      assert h in chains[c] && IsPlaced(links, |chains|, contents, hashOf, c, h);
      if h == e {
        ChainsDisjoint(links, chains, contents, hashOf, b, c, h);
      }
    }
  }

  // ---- inserting ----

  ghost predicate NotChained(chains: seq<seq<nat>>, h: nat) {
    forall b :: 0 <= b < |chains| ==> h !in chains[b]
  }

  lemma NewIsNotChained(links: seq<HashLink>, chains: seq<seq<nat>>, contents: map<CacheKey, nat>, hashOf: CacheKey -> nat, h: nat)
    requires InPlace(links, chains, contents, hashOf) && forall k :: k in contents ==> contents[k] != h
    ensures NotChained(chains, h)
  {
    forall b: nat, g: nat | b < |chains| && g in chains[b] ensures g != h {
      assert IsPlaced(links, |chains|, contents, hashOf, b, g);
    }
  }

  /** What follows position `j`, without the handle there. */
  function TailAfter(chain: seq<nat>, j: nat): seq<nat>
    requires j <= |chain|
  {
    if j < |chain| then chain[j + 1..] else []
  }

  /** Setting the link of a handle that is in no chain. */
  lemma LinkBeforeUse(links: seq<HashLink>, buckets: seq<Pointer>, chains: seq<seq<nat>>, contents: map<CacheKey, nat>, hashOf: CacheKey -> nat,
                      h: nat, b: nat, j: nat)
    requires TableOk(links, buckets, chains, contents, hashOf) && NotChained(chains, h) && h < |links|
    requires b < |chains| && j <= |chains[b]|
    ensures j < |chains[b]| ==> chains[b][j] < |links|
    ensures
      var next := if j < |chains[b]| then links[chains[b][j]].next else None;
      var links' := links[h := links[h].(next := next)];
      && ChainsOk(links', buckets, chains) && InPlace(links', chains, contents, hashOf) && AllChained(links', chains, contents, hashOf)
      && IsChain(links', Some(h), [h] + TailAfter(chains[b], j))
      && NoDuplicates(chains[b][..j] + ([h] + TailAfter(chains[b], j)))
  {
    hide InPlace, AllChained;
    var chain := chains[b];
    ChainAt(links, buckets[b], chain, j);
    var next := if j < |chain| then links[chain[j]].next else None;
    var links' := links[h := links[h].(next := next)];
    forall c: nat | c < |buckets| ensures IsChain(links', buckets[c], chains[c]) {
      ChainUnchanged(links, links', buckets[c], chains[c]);
    }
    PlacesStay(links, links', chains, contents, hashOf);
    var tail := TailAfter(chain, j);
    ChainUnchanged(links, links', next, tail);
    assert ([h] + tail)[1..] == tail;
    if j < |chain| {
      WithoutOne(chain, j);
    }
  }

  lemma InsertedPlaces(links: seq<HashLink>, links': seq<HashLink>, chains: seq<seq<nat>>, contents: map<CacheKey, nat>, hashOf: CacheKey -> nat,
                       h: nat, b: nat, j: nat)
    requires 0 < |chains| && InPlace(links, chains, contents, hashOf) && AllChained(links, chains, contents, hashOf)
    requires SameKeys(links, links') && h < |links| && NotChained(chains, h)
    requires b == hashOf(links[h].key) % |chains| && j <= |chains[b]| && NoDuplicates(chains[b])
    requires if links[h].key in contents then j < |chains[b]| && contents[links[h].key] == chains[b][j] else j == |chains[b]|
    ensures
      var chains', contents' := chains[b := chains[b][..j] + ([h] + TailAfter(chains[b], j))], contents[links[h].key := h];
      InPlace(links', chains', contents', hashOf) && AllChained(links', chains', contents', hashOf)
  {
    var key, chain := links[h].key, chains[b];
    var new_ := chain[..j] + ([h] + TailAfter(chain, j));
    var chains', contents' := chains[b := new_], contents[key := h];
    if j < |chain| {
      WithoutOne(chain, j);
      assert forall g :: g in new_ <==> g == h || g in chain[..j] + chain[j + 1..];
    } else {
      assert forall g :: g in new_ <==> g == h || g in chain;
    }
    forall c: nat, g: nat | c < |chains'| && g in chains'[c] ensures IsPlaced(links', |chains'|, contents', hashOf, c, g) {
      if g != h {
        assert g in chains[c] && IsPlaced(links, |chains|, contents, hashOf, c, g);
        if links[g].key == key {
          assert c == b && g == chain[j];
        }
      }
    }
    forall k | k in contents' && k != key ensures contents'[k] in chains'[hashOf(k) % |chains|] {
      assert contents[k] in chains[hashOf(k) % |chains|] && links[contents[k]].key == k;
    }
  }

  // ---- resizing ----

  /** Halfway through Resize: the handles of `rest`, chained from `h`, and of the buckets from `i`
      on have not been moved; the others are in the new chains. */
  ghost predicate MovingOk(links: seq<HashLink>, buckets: seq<Pointer>, chains: seq<seq<nat>>, i: nat, h: Pointer, rest: seq<nat>,
                           newBuckets: seq<Pointer>, newChains: seq<seq<nat>>, contents: map<CacheKey, nat>, hashOf: CacheKey -> nat) {
    && OldOk(links, buckets, chains, i)
    && IsChain(links, h, rest) && NoDuplicates(rest)
    && ChainsOk(links, newBuckets, newChains) && InPlace(links, newChains, contents, hashOf)
    && RestApart(links, chains, i, rest, newChains, contents)
    && OldApart(links, chains, i, newChains, contents, hashOf)
    && (forall k :: k in contents ==> IsSomewhere(links, chains, i, rest, newChains, hashOf, k, contents[k]))
  }

  ghost predicate OldOk(links: seq<HashLink>, buckets: seq<Pointer>, chains: seq<seq<nat>>, i: nat) {
    && |buckets| == |chains| && i <= |chains|
    && forall b :: i <= b < |buckets| ==> IsChain(links, buckets[b], chains[b]) && NoDuplicates(chains[b])
  }

  ghost predicate NotChainedFrom(chains: seq<seq<nat>>, i: nat, h: nat) {
    forall b :: i <= b < |chains| ==> h !in chains[b]
  }

  ghost predicate RestApart(links: seq<HashLink>, chains: seq<seq<nat>>, i: nat, rest: seq<nat>, newChains: seq<seq<nat>>, contents: map<CacheKey, nat>) {
    forall g :: g in rest ==> InContents(links, contents, g) && NotChainedFrom(chains, i, g) && NotChained(newChains, g)
  }

  ghost predicate OldApart(links: seq<HashLink>, chains: seq<seq<nat>>, i: nat, newChains: seq<seq<nat>>, contents: map<CacheKey, nat>, hashOf: CacheKey -> nat) {
    forall b: nat, g: nat :: i <= b < |chains| && g in chains[b] ==> IsPlaced(links, |chains|, contents, hashOf, b, g) && NotChained(newChains, g)
  }

  ghost predicate IsSomewhere(links: seq<HashLink>, chains: seq<seq<nat>>, i: nat, rest: seq<nat>, newChains: seq<seq<nat>>,
                              hashOf: CacheKey -> nat, key: CacheKey, g: nat) {
    && g < |links| && links[g].key == key
    && (g in rest || (exists b :: i <= b < |chains| && g in chains[b]) || (0 < |newChains| && g in newChains[hashOf(key) % |newChains|]))
  }

  ghost predicate HashesOk(links: seq<HashLink>, hashOf: CacheKey -> nat) {
    forall h :: 0 <= h < |links| ==> links[h].hash == hashOf(links[h].key)
  }

  lemma BeforeMoving(links: seq<HashLink>, buckets: seq<Pointer>, chains: seq<seq<nat>>, contents: map<CacheKey, nat>, hashOf: CacheKey -> nat, n: nat)
    requires TableOk(links, buckets, chains, contents, hashOf) && 0 < n
    ensures MovingOk(links, buckets, chains, 0, None, [], seq(n, _ => None), seq(n, _ => []), contents, hashOf)
  {
    var newChains: seq<seq<nat>> := seq(n, _ => []);
    forall k | k in contents ensures IsSomewhere(links, chains, 0, [], newChains, hashOf, k, contents[k]) {
      var b := hashOf(k) % |chains|;
      assert contents[k] in chains[b];
    }
    forall b: nat, g: nat | b < |chains| && g in chains[b] ensures NotChained(newChains, g) {
    }
  }

  lemma TakeBucket(links: seq<HashLink>, buckets: seq<Pointer>, chains: seq<seq<nat>>, i: nat,
                   newBuckets: seq<Pointer>, newChains: seq<seq<nat>>, contents: map<CacheKey, nat>, hashOf: CacheKey -> nat)
    requires i < |buckets| && MovingOk(links, buckets, chains, i, None, [], newBuckets, newChains, contents, hashOf)
    ensures i < |chains|
    ensures MovingOk(links, buckets, chains, i + 1, buckets[i], chains[i], newBuckets, newChains, contents, hashOf)
    ensures buckets[i].None? ==> chains[i] == []
  {
    forall g: nat | g in chains[i] ensures InContents(links, contents, g) && NotChainedFrom(chains, i + 1, g) && NotChained(newChains, g) {
      assert IsPlaced(links, |chains|, contents, hashOf, i, g);
      forall b: nat | i + 1 <= b < |chains| ensures g !in chains[b] {
        assert g in chains[b] ==> IsPlaced(links, |chains|, contents, hashOf, b, g);
      }
    }
    forall k | k in contents ensures IsSomewhere(links, chains, i + 1, chains[i], newChains, hashOf, k, contents[k]) {
      assert IsSomewhere(links, chains, i, [], newChains, hashOf, k, contents[k]);
    }
  }

  lemma MovedChains(links: seq<HashLink>, newBuckets: seq<Pointer>, newChains: seq<seq<nat>>, contents: map<CacheKey, nat>, hashOf: CacheKey -> nat, x: nat, b: nat)
    requires ChainsOk(links, newBuckets, newChains) && InPlace(links, newChains, contents, hashOf)
    requires x < |links| && InContents(links, contents, x) && NotChained(newChains, x)
    requires b < |newChains| && b == hashOf(links[x].key) % |newChains|
    ensures
      var links' := links[x := links[x].(next := newBuckets[b])];
      var newChains' := newChains[b := [x] + newChains[b]];
      ChainsOk(links', newBuckets[b := Some(x)], newChains') && InPlace(links', newChains', contents, hashOf)
  {
    var links' := links[x := links[x].(next := newBuckets[b])];
    var newBuckets', newChains' := newBuckets[b := Some(x)], newChains[b := [x] + newChains[b]];
    forall c: nat | c < |newBuckets'| ensures IsChain(links', newBuckets'[c], newChains'[c]) && NoDuplicates(newChains'[c]) {
      ChainUnchanged(links, links', newBuckets[c], newChains[c]);
      if c == b {
        assert newChains'[b][1..] == newChains[b];
      }
    }
    forall c: nat, g: nat | c < |newChains'| && g in newChains'[c] ensures IsPlaced(links', |newChains'|, contents, hashOf, c, g) {
      if g != x {
        assert g in newChains[c] && IsPlaced(links, |newChains|, contents, hashOf, c, g);
      }
    }
  }

  lemma MovedRest(links: seq<HashLink>, links': seq<HashLink>, buckets: seq<Pointer>, chains: seq<seq<nat>>, i: nat, rest: seq<nat>)
    requires OldOk(links, buckets, chains, i) && rest != [] && IsChain(links, Some(rest[0]), rest) && NoDuplicates(rest)
    requires NotChainedFrom(chains, i, rest[0]) && |links'| == |links|
    requires forall g :: 0 <= g < |links| && g != rest[0] ==> links'[g] == links[g]
    ensures OldOk(links', buckets, chains, i)
    ensures rest[0] < |links| && IsChain(links', links[rest[0]].next, rest[1..]) && NoDuplicates(rest[1..])
  {
    forall b | i <= b < |buckets| ensures IsChain(links', buckets[b], chains[b]) {
      ChainUnchanged(links, links', buckets[b], chains[b]);
    }
    ChainUnchanged(links, links', links[rest[0]].next, rest[1..]);
  }

  lemma MovedApart(links: seq<HashLink>, links': seq<HashLink>, chains: seq<seq<nat>>, i: nat, rest: seq<nat>,
                   newChains: seq<seq<nat>>, contents: map<CacheKey, nat>, hashOf: CacheKey -> nat, b: nat)
    requires rest != [] && NoDuplicates(rest) && b < |newChains| && SameKeys(links, links')
    requires RestApart(links, chains, i, rest, newChains, contents) && OldApart(links, chains, i, newChains, contents, hashOf)
    ensures
      var newChains' := newChains[b := [rest[0]] + newChains[b]];
      RestApart(links', chains, i, rest[1..], newChains', contents) && OldApart(links', chains, i, newChains', contents, hashOf)
  {
    var newChains' := newChains[b := [rest[0]] + newChains[b]];
    forall g: nat | g in rest[1..] ensures InContents(links', contents, g) && NotChainedFrom(chains, i, g) && NotChained(newChains', g) {
      assert g in rest && g != rest[0];
    }
    assert rest[0] in rest;
    forall c: nat, g: nat | i <= c < |chains| && g in chains[c] ensures IsPlaced(links', |chains|, contents, hashOf, c, g) && NotChained(newChains', g) {
      assert IsPlaced(links, |chains|, contents, hashOf, c, g) && g != rest[0];
    }
  }

  lemma MovedSomewhere(links: seq<HashLink>, links': seq<HashLink>, chains: seq<seq<nat>>, i: nat, rest: seq<nat>,
                       newChains: seq<seq<nat>>, hashOf: CacheKey -> nat, b: nat, k: CacheKey, g: nat)
    requires rest != [] && 0 < |newChains| && b < |newChains| && SameKeys(links, links')
    requires rest[0] < |links| && b == hashOf(links[rest[0]].key) % |newChains|
    requires IsSomewhere(links, chains, i, rest, newChains, hashOf, k, g)
    ensures IsSomewhere(links', chains, i, rest[1..], newChains[b := [rest[0]] + newChains[b]], hashOf, k, g)
  {
    if g in rest && g != rest[0] {
      assert g in rest[1..];
    }
  }

  lemma MoveOne(links: seq<HashLink>, buckets: seq<Pointer>, chains: seq<seq<nat>>, i: nat, h: Pointer, rest: seq<nat>,
                newBuckets: seq<Pointer>, newChains: seq<seq<nat>>, contents: map<CacheKey, nat>, hashOf: CacheKey -> nat)
    requires MovingOk(links, buckets, chains, i, h, rest, newBuckets, newChains, contents, hashOf)
    requires h.Some? && HashesOk(links, hashOf)
    ensures rest != [] && h == Some(rest[0]) && h.value < |links| && 0 < |newBuckets| == |newChains|
    ensures
      var b := links[h.value].hash % |newChains|;
      var links' := links[h.value := links[h.value].(next := newBuckets[b])];
      MovingOk(links', buckets, chains, i, links[h.value].next, rest[1..], newBuckets[b := h], newChains[b := [h.value] + newChains[b]], contents, hashOf)
    ensures links[h.value].next.None? ==> rest[1..] == []
  {
    hide OldOk, InPlace, OldApart, IsSomewhere, NotChained, NotChainedFrom, NoDuplicates;
    assert rest[0] in rest;
    var x := h.value;
    var b := links[x].hash % |newChains|;
    var links' := links[x := links[x].(next := newBuckets[b])];
    MovedChains(links, newBuckets, newChains, contents, hashOf, x, b);
    MovedRest(links, links', buckets, chains, i, rest);
    MovedApart(links, links', chains, i, rest, newChains, contents, hashOf, b);
    forall k | k in contents ensures IsSomewhere(links', chains, i, rest[1..], newChains[b := [x] + newChains[b]], hashOf, k, contents[k]) {
      MovedSomewhere(links, links', chains, i, rest, newChains, hashOf, b, k, contents[k]);
    }
  }

  lemma EndMoving(links: seq<HashLink>, buckets: seq<Pointer>, chains: seq<seq<nat>>,
                  newBuckets: seq<Pointer>, newChains: seq<seq<nat>>, contents: map<CacheKey, nat>, hashOf: CacheKey -> nat)
    requires MovingOk(links, buckets, chains, |buckets|, None, [], newBuckets, newChains, contents, hashOf)
    ensures TableOk(links, newBuckets, newChains, contents, hashOf)
  {
    forall k | k in contents ensures contents[k] in newChains[hashOf(k) % |newChains|] && contents[k] < |links| && links[contents[k]].key == k {
      assert IsSomewhere(links, chains, |buckets|, [], newChains, hashOf, k, contents[k]);
    }
  }

  class HandleTable {
    const hashOf: CacheKey -> nat
    var links: seq<HashLink>
    var buckets: seq<Pointer>
    var elems: nat
    ghost var chains: seq<seq<nat>>
    ghost var contents: map<CacheKey, nat>

    ghost predicate Ok()
      reads this
    {
      Linked() && elems <= |buckets|
    }

    /** All of it, but for the number of buckets. */
    ghost predicate Linked()
      reads this
    {
      && TableOk(links, buckets, chains, contents, hashOf)
      && elems == |contents.Keys|
      && HashesOk(links, hashOf)
    }

    constructor (hashOf: CacheKey -> nat)
      ensures Ok() && contents == map[] && links == [] && this.hashOf == hashOf
    {
      this.hashOf := hashOf;
      links, elems := [], 0;
      buckets, chains := seq(4, _ => None), seq(4, _ => []);
      contents := map[];
    }

    /** malloc of a handle, as far as the table is concerned. */
    method NewHandle(key: CacheKey, hash: nat) returns (h: nat)
      requires Ok() && hash == hashOf(key)
      modifies this`links
      ensures Ok() && h == |old(links)| && |links| == h + 1 && links[h].key == key
      ensures forall i :: 0 <= i < h ==> links[i] == old(links)[i]
    {
      hide TableOk;
      h := |links|;
      links := links + [HashLink(key, hash, None)];
      TableGrows(old(links), links, buckets, chains, contents, hashOf);
    }

    /** The slot that points to the handle with this key, or the last slot of its chain: a bucket
        when `j` is 0, and otherwise the link of the handle before. */
    method FindPointer(key: CacheKey, hash: nat) returns (pred: Pointer, p: Pointer, ghost j: nat)
      requires Ok() && hash == hashOf(key)
      ensures 0 < |buckets| == |chains|
      ensures
        var chain := chains[hash % |buckets|];
        && j <= |chain| && p == (if j < |chain| then Some(chain[j]) else None)
        && pred == (if j > 0 then Some(chain[j - 1]) else None)
      ensures p == if key in contents then Some(contents[key]) else None
      ensures p.Some? ==> p.value < |links|
    {
      var b := hash % |buckets|;
      ghost var chain := chains[b];
      pred, p, j := None, buckets[b], 0;
      ChainAt(links, buckets[b], chain, 0);
      hide TableOk, ChainsOk, InPlace, AllChained, IsPlaced;
      while p.Some? && (links[p.value].hash != hash || links[p.value].key != key)
        invariant j <= |chain| && p == (if j < |chain| then Some(chain[j]) else None)
        invariant pred == (if j > 0 then Some(chain[j - 1]) else None)
        invariant forall i :: 0 <= i < j ==> links[chain[i]].key != key
        decreases |chain| - j
      {
        ChainAt(links, buckets[b], chain, j + 1);
        pred := p;
        p := links[p.value].next;
        j := j + 1;
      }
      KeyIsInItsChain(links, buckets, chains, contents, hashOf, key, b, j);
    }

    method Lookup(key: CacheKey, hash: nat) returns (p: Pointer)
      requires Ok() && hash == hashOf(key)
      ensures p == if key in contents then Some(contents[key]) else None
    {
      var pred, q, j := FindPointer(key, hash);
      p := q;
    }

    /** Points the slot that FindPointer found to `q`, behind which `tail` is chained. */
    method Store(pred: Pointer, b: nat, ghost j: nat, q: Pointer, ghost tail: seq<nat>)
      requires ChainsOk(links, buckets, chains) && InPlace(links, chains, contents, hashOf)
      requires b < |chains| && j <= |chains[b]| && pred == (if j > 0 then Some(chains[b][j - 1]) else None)
      requires IsChain(links, q, tail) && NoDuplicates(chains[b][..j] + tail)
      modifies this`links, this`buckets, this`chains
      ensures ChainsOk(links, buckets, chains) && chains == old(chains)[b := old(chains)[b][..j] + tail]
      ensures |buckets| == |old(buckets)|
      ensures |links| == |old(links)| && forall h :: 0 <= h < |links| ==> links[h].key == old(links)[h].key && links[h].hash == old(links)[h].hash
    {
      hide InPlace;
      Spliced(links, buckets, chains, contents, hashOf, b, j, q, tail);
      chains := chains[b := chains[b][..j] + tail];
      if pred.Some? {
        links := links[pred.value := links[pred.value].(next := q)];
      } else {
        buckets := buckets[b := q];
      }
    }

    method Remove(key: CacheKey, hash: nat) returns (result: Pointer)
      requires Ok() && hash == hashOf(key)
      modifies this
      ensures Ok() && contents == old(contents) - {key}
      ensures result == if key in old(contents) then Some(old(contents)[key]) else None
      ensures SameKeys(old(links), links) && |links| == |old(links)|
    {
      hide InPlace, AllChained, ChainsOk;
      var pred, p, j := FindPointer(key, hash);
      result := p;
      if result.Some? {
        var b := hash % |buckets|;
        ChainFacts(links, buckets, chains, contents, hashOf, b, j);
        WithoutOne(chains[b], j);
        Store(pred, b, j, links[p.value].next, chains[b][j + 1..]);
        RemovedPlaces(old(links), links, old(chains), contents, hashOf, key, b, j);
        assert (contents - {key}).Keys == contents.Keys - {key};
        contents := contents - {key};
        elems := elems - 1;
      } else {
        assert contents - {key} == contents;
      }
    }

    /** Adds a handle, in the place of the one with its key if there is one, which is returned. */
    method Insert(h: nat) returns (result: Pointer)
      requires Ok() && h < |links| && forall k :: k in contents ==> contents[k] != h
      modifies this
      ensures SameKeys(old(links), links) && |links| == |old(links)|
      ensures Ok() && contents == old(contents)[old(links)[h].key := h]
      ensures result == if old(links)[h].key in old(contents) then Some(old(contents)[old(links)[h].key]) else None
    {
      hide TableOk;
      result := PutInChain(h);
      if result.None? && elems > |buckets| {
        Resize();
      }
    }

    method PutInChain(h: nat) returns (result: Pointer)
      requires Ok() && h < |links| && forall k :: k in contents ==> contents[k] != h
      modifies this
      ensures SameKeys(old(links), links) && |links| == |old(links)|
      ensures Linked() && |buckets| == |old(buckets)| && elems <= |buckets| + (if result.None? then 1 else 0)
      ensures contents == old(contents)[old(links)[h].key := h]
      ensures result == if old(links)[h].key in old(contents) then Some(old(contents)[old(links)[h].key]) else None
    {
      hide TableOk, TailAfter, NoDuplicates, IsChain, NotChained;
      ghost var key := links[h].key;
      var pred, p, j := FindPointer(links[h].key, links[h].hash);
      result := p;
      LinkIn(h, pred, if p.None? then None else links[p.value].next, links[h].hash % |buckets|, j);
      assert contents[key := h].Keys == contents.Keys + {key};
      contents := contents[key := h];
      if result.None? {
        elems := elems + 1;
      }
    }

    /** The two stores of Insert: the link of the new handle, and the slot that now points to it. */
    method LinkIn(h: nat, pred: Pointer, next: Pointer, b: nat, ghost j: nat)
      requires Ok() && h < |links| && forall k :: k in contents ==> contents[k] != h
      requires 0 < |chains| && b == hashOf(links[h].key) % |chains| && j <= |chains[b]|
      requires pred == if j > 0 then Some(chains[b][j - 1]) else None
      requires j < |chains[b]| ==> chains[b][j] < |links|
      requires next == if j < |chains[b]| then links[chains[b][j]].next else None
      requires if links[h].key in contents then j < |chains[b]| && contents[links[h].key] == chains[b][j] else j == |chains[b]|
      modifies this`links, this`buckets, this`chains
      ensures |buckets| == |old(buckets)|
      ensures SameKeys(old(links), links) && |links| == |old(links)|
      ensures forall g :: 0 <= g < |links| ==> links[g].hash == old(links)[g].hash
      ensures TableOk(links, buckets, chains, contents[old(links)[h].key := h], hashOf)
    {
      hide InPlace, AllChained, ChainsOk, NoDuplicates, IsChain, NotChained, TailAfter;
      InsertFacts(h, b, j);
      links := links[h := links[h].(next := next)];
      ghost var links1 := links;
      Store(pred, b, j, Some(h), [h] + TailAfter(chains[b], j));
      InsertedPlaces(links1, links, old(chains), contents, hashOf, h, b, j);
    }

    lemma InsertFacts(h: nat, b: nat, j: nat)
      requires Ok() && h < |links| && forall k :: k in contents ==> contents[k] != h
      requires b < |chains| && j <= |chains[b]|
      ensures NotChained(chains, h) && NoDuplicates(chains[b])
      ensures j < |chains[b]| ==> chains[b][j] < |links|
      ensures
        var next := if j < |chains[b]| then links[chains[b][j]].next else None;
        var links' := links[h := links[h].(next := next)];
        && ChainsOk(links', buckets, chains) && InPlace(links', chains, contents, hashOf) && AllChained(links', chains, contents, hashOf)
        && IsChain(links', Some(h), [h] + TailAfter(chains[b], j))
        && NoDuplicates(chains[b][..j] + ([h] + TailAfter(chains[b], j)))
    {
      NewIsNotChained(links, chains, contents, hashOf, h);
      LinkBeforeUse(links, buckets, chains, contents, hashOf, h, b, j);
    }

    /** One pass of Resize's outer loop. */
    method MoveBucket(i: nat, newLength: nat, buckets0: seq<Pointer>, ghost chains0: seq<seq<nat>>)
        returns (newBuckets: seq<Pointer>, ghost newChains: seq<seq<nat>>)
      requires i < |buckets| && |buckets0| == |chains0| == newLength && 0 < newLength && HashesOk(links, hashOf)
      requires MovingOk(links, buckets, chains, i, None, [], buckets0, chains0, contents, hashOf)
      modifies this`links
      ensures SameKeys(old(links), links) && |links| == |old(links)| && HashesOk(links, hashOf)
      ensures |newBuckets| == |newChains| == newLength
      ensures MovingOk(links, buckets, chains, i + 1, None, [], newBuckets, newChains, contents, hashOf)
    {
      hide MovingOk;
      newBuckets, newChains := buckets0, chains0;
      var h: Pointer := buckets[i];
      TakeBucket(links, buckets, chains, i, newBuckets, newChains, contents, hashOf);
      ghost var rest := chains[i];
      while h.Some?
        invariant MovingOk(links, buckets, chains, i + 1, h, rest, newBuckets, newChains, contents, hashOf)
        invariant |newBuckets| == |newChains| == newLength && (h.None? ==> rest == [])
        invariant SameKeys(old(links), links) && |links| == |old(links)| && HashesOk(links, hashOf)
        decreases |rest|
      {
        MoveOne(links, buckets, chains, i + 1, h, rest, newBuckets, newChains, contents, hashOf);
        var next: Pointer := links[h.value].next;
        var b := links[h.value].hash % newLength;
        links := links[h.value := links[h.value].(next := newBuckets[b])];
        newBuckets := newBuckets[b := h];
        newChains := newChains[b := [h.value] + newChains[b]];
        h := next;
        rest := rest[1..];
      }
    }

    method Resize()
      requires Linked()
      modifies this
      ensures SameKeys(old(links), links) && |links| == |old(links)|
      ensures Ok() && contents == old(contents)
    {
      hide MovingOk, TableOk, IsChain;
      var newLength := 4;
      while newLength < elems
        invariant newLength > 0
      {
        newLength := newLength * 2;
      }
      var newBuckets: seq<Pointer> := seq(newLength, _ => None);
      ghost var newChains: seq<seq<nat>> := seq(newLength, _ => []);
      BeforeMoving(links, buckets, chains, contents, hashOf, newLength);
      for i := 0 to |buckets|
        invariant MovingOk(links, buckets, chains, i, None, [], newBuckets, newChains, contents, hashOf)
        invariant |newBuckets| == |newChains| == newLength
        invariant SameKeys(old(links), links) && |links| == |old(links)| && HashesOk(links, hashOf)
        invariant buckets == old(buckets) && chains == old(chains) && contents == old(contents) && elems == old(elems)
      {
        newBuckets, newChains := MoveBucket(i, newLength, newBuckets, newChains);
      }
      EndMoving(links, buckets, chains, newBuckets, newChains, contents, hashOf);
      buckets, chains := newBuckets, newChains;
    }
  }
}
