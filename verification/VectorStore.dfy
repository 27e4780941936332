/** The bounded in-memory vector store (app/core/vector_store.py): two deques and a
    key set that must stay in step, fed by callers whose pre-filter runs outside the lock. */
module VectorStore {
  import opened Text

  type Vector = seq<real>

  datatype Chunk = Chunk(text: string, headline: string, source: string, link: string)

  type Embedder = string -> Vector

  function Key(c: Chunk): string {
    if c.link != "" then c.link else c.text
  }

  predicate Blank(text: string) {
    forall i :: 0 <= i < |text| ==> IsSpace(text[i])
  }

  /** The store's fields; `appended` records every chunk ever appended, oldest first. */
  datatype Store = Store(chunks: seq<Chunk>, vectors: seq<Vector>, seen: set<string>, appended: seq<Chunk>)

  const EMPTY_STORE := Store([], [], {}, [])

  /** `deque(maxlen=capacity).append`. */
  function Push<T>(xs: seq<T>, x: T, capacity: nat): seq<T> {
    var longer := xs + [x];
    if |longer| > capacity then longer[|longer| - capacity..] else longer
  }

  /** One turn of the locked loop. */
  function InsertOne(s: Store, c: Chunk, embed: Embedder, capacity: nat): Store {
    if Key(c) in s.seen then s
    else
      var seen := if |s.chunks| == capacity && s.chunks != [] then s.seen - {Key(s.chunks[0])} else s.seen;
      Store(Push(s.chunks, c, capacity), Push(s.vectors, embed(c.text), capacity), seen + {Key(c)}, s.appended + [c])
  }

  function InsertAll(s: Store, candidates: seq<Chunk>, embed: Embedder, capacity: nat): Store {
    if candidates == [] then s
    else
      var n := |candidates| - 1;
      InsertOne(InsertAll(s, candidates[..n], embed, capacity), candidates[n], embed, capacity)
  }

  /** The unlocked pre-filter. */
  function Prefilter(s: Store, items: seq<Chunk>): seq<Chunk> {
    if items == [] then []
    else
      var rest := Prefilter(s, items[..|items| - 1]);
      var c := items[|items| - 1];
      if !Blank(c.text) && Key(c) !in s.seen then rest + [c] else rest
  }

  class InMemoryVectorStore {
    const capacity: nat
    const embed: Embedder
    var chunks: seq<Chunk>
    var vectors: seq<Vector>
    var seen: set<string>
    ghost var appended: seq<Chunk>

    ghost function View(): Store
      reads this
    {
      Store(chunks, vectors, seen, appended)
    }

    constructor (embed: Embedder, capacity: nat)
      ensures this.embed == embed && this.capacity == capacity && View() == EMPTY_STORE
    {
      this.embed, this.capacity := embed, capacity;
      chunks, vectors, seen, appended := [], [], {}, [];
    }

    /** First half of `add_texts`: reads the set without the lock. */
    method Filter(items: seq<Chunk>) returns (candidates: seq<Chunk>)
      ensures candidates == Prefilter(View(), items)
    {
      candidates := [];
      for i := 0 to |items|
        invariant candidates == Prefilter(View(), items[..i])
      {
        assert items[..i + 1][..i] == items[..i];
        if !Blank(items[i].text) && Key(items[i]) !in seen {
          candidates := candidates + [items[i]];
        }
      }
      assert items[..|items|] == items;
    }

    /** Second half of `add_texts`, under the lock. */
    method Insert(candidates: seq<Chunk>)
      modifies this
      ensures View() == InsertAll(old(View()), candidates, embed, capacity)
    {
      for i := 0 to |candidates|
        invariant View() == InsertAll(old(View()), candidates[..i], embed, capacity)
      {
        assert candidates[..i + 1][..i] == candidates[..i];
        var chunk := candidates[i];
        var key := Key(chunk);
        if key !in seen {
          if |chunks| == capacity && chunks != [] {
            seen := seen - {Key(chunks[0])};
          }
          chunks := Push(chunks, chunk, capacity);
          vectors := Push(vectors, embed(chunk.text), capacity);
          seen := seen + {key};
          appended := appended + [chunk];
        }
      }
      assert candidates[..|candidates|] == candidates;
    }

    /** `search`: scores every stored vector and keeps the best k at or above the threshold. */
    method Search(query: string, k: nat, minScore: real) returns (hits: seq<(Chunk, real)>)
      requires |vectors| == |chunks|
      ensures Blank(query) ==> hits == []
      ensures !Blank(query) ==>
        var scores := Scores(vectors, embed(query));
        var found := Hits(scores, k, minScore);
        |hits| == |found| &&
        forall h :: 0 <= h < |hits| ==> found[h] < |chunks| && hits[h] == (chunks[found[h]], scores[found[h]])
    {
      if Blank(query) {
        return [];
      }
      hide Order, Scores, AtLeast;
      var scores := Scores(vectors, embed(query));
      OrderIsSortedPermutation(scores);
      var top := Take(Order(scores, |scores|), k);
      hits := [];
      ghost var found: seq<nat> := [];
      AtLeastGrows(scores, [], 0, minScore);
      for n := 0 to |top|
        invariant found == AtLeast(scores, top[..n], minScore)
        invariant |hits| == |found| && forall h :: 0 <= h < |hits| ==>
          found[h] < |chunks| && hits[h] == (chunks[found[h]], scores[found[h]])
      {
        var i := top[n];
        AtLeastGrows(scores, top, n + 1, minScore);
        if scores[i] >= minScore {
          hits := hits + [(chunks[i], scores[i])];
          found := found + [i];
        }
      }
      assert top[..|top|] == top;
    }
  }

  lemma AtLeastGrows(scores: seq<real>, order: seq<nat>, n: nat, minScore: real)
    requires n <= |order| && forall p :: 0 <= p < |order| ==> order[p] < |scores|
    ensures n == 0 ==> AtLeast(scores, order[..n], minScore) == []
    ensures n > 0 && scores[order[n - 1]] >= minScore ==>
      AtLeast(scores, order[..n], minScore) == AtLeast(scores, order[..n - 1], minScore) + [order[n - 1]]
    ensures n > 0 && scores[order[n - 1]] < minScore ==>
      AtLeast(scores, order[..n], minScore) == AtLeast(scores, order[..n - 1], minScore)
  {
    if n > 0 {
      assert order[..n][..n - 1] == order[..n - 1];
    }
  }

  // ---- Coherence over every interleaving ---------------------------------------------

  /** The last `n` elements, or all of them. */
  function Suffix<T>(xs: seq<T>, n: nat): seq<T> {
    if |xs| > n then xs[|xs| - n..] else xs
  }

  ghost predicate Coherent(s: Store, embed: Embedder, capacity: nat) {
    && |s.chunks| <= capacity
    && |s.vectors| == |s.chunks|
    && (forall i :: 0 <= i < |s.chunks| ==> s.vectors[i] == embed(s.chunks[i].text))
    && (forall i :: 0 <= i < |s.chunks| ==> Key(s.chunks[i]) in s.seen)
    && (forall k :: k in s.seen ==> exists i :: 0 <= i < |s.chunks| && Key(s.chunks[i]) == k)
    && (forall i, j :: 0 <= i < j < |s.chunks| ==> Key(s.chunks[i]) != Key(s.chunks[j]))
    && s.chunks == Suffix(s.appended, capacity)
  }

  /** Appending to a bounded deque drops at most its oldest element. */
  lemma PushIs<T>(xs: seq<T>, x: T, capacity: nat)
    requires capacity > 0 && |xs| <= capacity
    ensures Push(xs, x, capacity) == (if |xs| == capacity then xs[1..] else xs) + [x]
  {
  }

  lemma SuffixPush<T>(history: seq<T>, x: T, capacity: nat)
    requires capacity > 0
    ensures Suffix(history + [x], capacity) == Push(Suffix(history, capacity), x, capacity)
  {
  }

  lemma KeysAfterEviction(s: Store, c: Chunk, embed: Embedder, capacity: nat)
    requires capacity > 0 && Coherent(s, embed, capacity) && Key(c) !in s.seen
    ensures var t := InsertOne(s, c, embed, capacity);
      && (forall i :: 0 <= i < |t.chunks| ==> Key(t.chunks[i]) in t.seen)
      && (forall k :: k in t.seen ==> exists i :: 0 <= i < |t.chunks| && Key(t.chunks[i]) == k)
      && (forall i, j :: 0 <= i < j < |t.chunks| ==> Key(t.chunks[i]) != Key(t.chunks[j]))
  {
    hide Push, Suffix, Key;
    var t := InsertOne(s, c, embed, capacity);
    var shift := if |s.chunks| == capacity then 1 else 0;
    PushIs(s.chunks, c, capacity);
    assert t.chunks == s.chunks[shift..] + [c];
    forall k | k in t.seen ensures exists i :: 0 <= i < |t.chunks| && Key(t.chunks[i]) == k {
      if k == Key(c) {
        assert Key(t.chunks[|t.chunks| - 1]) == k;
      } else {
        var i :| 0 <= i < |s.chunks| && Key(s.chunks[i]) == k;
        assert Key(t.chunks[i - shift]) == k;
      }
    }
  }

  lemma InsertKeepsCoherence(s: Store, c: Chunk, embed: Embedder, capacity: nat)
    requires capacity > 0 && Coherent(s, embed, capacity)
    ensures Coherent(InsertOne(s, c, embed, capacity), embed, capacity)
  {
    if Key(c) !in s.seen {
      hide Push, Suffix, Key;
      KeysAfterEviction(s, c, embed, capacity);
      PushIs(s.chunks, c, capacity);
      PushIs(s.vectors, embed(c.text), capacity);
      SuffixPush(s.appended, c, capacity);
    }
  }

  lemma {:induction false} InsertAllKeepsCoherence(s: Store, candidates: seq<Chunk>, embed: Embedder, capacity: nat)
    requires capacity > 0 && Coherent(s, embed, capacity)
    ensures Coherent(InsertAll(s, candidates, embed, capacity), embed, capacity)
  {
    hide Coherent, InsertOne;
    if candidates == [] {
    } else {
      var before := candidates[..|candidates| - 1];
      InsertAllKeepsCoherence(s, before, embed, capacity);
      InsertKeepsCoherence(InsertAll(s, before, embed, capacity), candidates[|candidates| - 1], embed, capacity);
    }
  }

  datatype Event = Offer(id: nat, items: seq<Chunk>) | Commit(id: nat)

  /** The store and, per caller, the candidates its stale pre-filter left it with. */
  datatype World = World(store: Store, pending: map<nat, seq<Chunk>>)

  function Next(w: World, e: Event, embed: Embedder, capacity: nat): World {
    match e
    case Offer(id, items) => w.(pending := w.pending[id := Prefilter(w.store, items)])
    case Commit(id) =>
      if id in w.pending
      then World(InsertAll(w.store, w.pending[id], embed, capacity), w.pending - {id})
      else w
  }

  function Run(w: World, events: seq<Event>, embed: Embedder, capacity: nat): World {
    if events == [] then w
    else Next(Run(w, events[..|events| - 1], embed, capacity), events[|events| - 1], embed, capacity)
  }

  /** For a capacity of at least 1 and any interleaving of pre-filters and inserts, the key set,
      the chunks and the vectors agree, keys are distinct, the bound holds, and the store holds
      the most recently appended chunks in order. */
  lemma {:induction false} EveryInterleavingIsCoherent(events: seq<Event>, embed: Embedder, capacity: nat)
    requires capacity > 0
    ensures Coherent(Run(World(EMPTY_STORE, map[]), events, embed, capacity).store, embed, capacity)
  {
    hide InsertAll, Prefilter;
    if events == [] {
    } else {
      var before := events[..|events| - 1];
      EveryInterleavingIsCoherent(before, embed, capacity);
      var w := Run(World(EMPTY_STORE, map[]), before, embed, capacity);
      hide Coherent;
      match events[|events| - 1]
      case Offer(_, _) =>
      case Commit(id) =>
        if id in w.pending {
          InsertAllKeepsCoherence(w.store, w.pending[id], embed, capacity);
        }
    }
  }

  /** With no capacity the deques stay empty while the key set grows: coherence needs room for one. */
  lemma NoCapacityLeaksKeys(c: Chunk, embed: Embedder)
    ensures var s := InsertOne(EMPTY_STORE, c, embed, 0);
            s.chunks == [] && s.seen == {Key(c)} && !Coherent(s, embed, 0)
  {
    assert Key(c) in InsertOne(EMPTY_STORE, c, embed, 0).seen;
  }

  /** In terms of the chunks: no two stored chunks share a link, and no two without links share a text. */
  lemma StoredChunksDiffer(events: seq<Event>, embed: Embedder, capacity: nat)
    requires capacity > 0
    ensures var chunks := Run(World(EMPTY_STORE, map[]), events, embed, capacity).store.chunks;
      forall i, j :: 0 <= i < j < |chunks| ==>
        && (chunks[i].link != "" ==> chunks[i].link != chunks[j].link)
        && (chunks[i].link == "" && chunks[j].link == "" ==> chunks[i].text != chunks[j].text)
  {
    EveryInterleavingIsCoherent(events, embed, capacity);
    var chunks := Run(World(EMPTY_STORE, map[]), events, embed, capacity).store.chunks;
    hide Run;
    forall i, j | 0 <= i < j < |chunks|
      ensures chunks[i].link != "" ==> chunks[i].link != chunks[j].link
      ensures chunks[i].link == "" && chunks[j].link == "" ==> chunks[i].text != chunks[j].text
    {
      assert Key(chunks[i]) != Key(chunks[j]);
    }
  }

  /** The link a chunk goes by, or its text without one, is taken by a stored chunk. */
  ghost predicate Taken(chunks: seq<Chunk>, c: Chunk) {
    exists i :: 0 <= i < |chunks| &&
      (if chunks[i].link != "" then chunks[i].link else chunks[i].text) == (if c.link != "" then c.link else c.text)
  }

  /** A chunk goes in exactly when no stored chunk goes by the same link or text, and the pre-filter passes
      exactly those of them with a character that is not white space. */
  lemma {:induction false} NewChunksGoIn(s: Store, c: Chunk, items: seq<Chunk>, embed: Embedder, capacity: nat)
    requires Coherent(s, embed, capacity)
    ensures InsertOne(s, c, embed, capacity).appended == if Taken(s.chunks, c) then s.appended else s.appended + [c]
    ensures c in Prefilter(s, items) <==>
      c in items && !Taken(s.chunks, c) && exists i :: 0 <= i < |c.text| && !IsSpace(c.text[i])
  {
    KeyIsTaken(s, c, embed, capacity);
    if items == [] {
    } else {
      NewChunksGoIn(s, c, items[..|items| - 1], embed, capacity);
      hide Key, Coherent, Taken;
      assert items == items[..|items| - 1] + [items[|items| - 1]];
    }
  }

  lemma KeyIsTaken(s: Store, c: Chunk, embed: Embedder, capacity: nat)
    requires Coherent(s, embed, capacity)
    ensures Key(c) in s.seen <==> Taken(s.chunks, c)
  {
  }

  // ---- Search ------------------------------------------------------------------------------

  function Dot(a: Vector, b: Vector): real {
    if a == [] || b == [] then 0.0 else a[0] * b[0] + Dot(a[1..], b[1..])
  }

  /** The sum of the products, place by place. */
  lemma {:induction false} DotGrows(a: Vector, b: Vector, x: real, y: real)
    requires |a| == |b|
    ensures Dot([], []) == 0.0
    ensures Dot(a + [x], b + [y]) == Dot(a, b) + x * y
  {
    if a == [] {
      assert ([] + [x])[1..] == [] && ([] + [y])[1..] == [];
    } else {
      assert (a + [x])[1..] == a[1..] + [x] && (b + [y])[1..] == b[1..] + [y];
      DotGrows(a[1..], b[1..], x, y);
    }
  }

  function Scores(vectors: seq<Vector>, query: Vector): (scores: seq<real>)
    ensures |scores| == |vectors|
    ensures forall i :: 0 <= i < |scores| ==> scores[i] == Dot(vectors[i], query)
  {
    seq(|vectors|, i requires 0 <= i < |vectors| => Dot(vectors[i], query))
  }

  ghost predicate Indices(order: seq<nat>, n: nat) {
    && (forall p :: 0 <= p < |order| ==> order[p] < n)
    && (forall p, q :: 0 <= p < q < |order| ==> order[p] != order[q])
  }

  ghost predicate Descending(scores: seq<real>, order: seq<nat>)
    requires Indices(order, |scores|)
  {
    forall p, q :: 0 <= p < q < |order| ==> scores[order[p]] >= scores[order[q]]
  }

  function Place(scores: seq<real>, i: nat, order: seq<nat>): seq<nat>
    requires i < |scores| && forall p :: 0 <= p < |order| ==> order[p] < |scores|
  {
    if order == [] || scores[i] >= scores[order[0]] then [i] + order
    else [order[0]] + Place(scores, i, order[1..])
  }

  /** The first n indices by descending score: `argsort(scores)[::-1]`. */
  function Order(scores: seq<real>, n: nat): (order: seq<nat>)
    requires n <= |scores|
    ensures forall p :: 0 <= p < |order| ==> order[p] < n
  {
    if n == 0 then []
    else
      PlaceMembers(scores, n - 1, Order(scores, n - 1));
      Place(scores, n - 1, Order(scores, n - 1))
  }

  lemma {:induction false} PlaceMembers(scores: seq<real>, i: nat, order: seq<nat>)
    requires i < |scores| && forall p :: 0 <= p < |order| ==> order[p] < |scores|
    ensures multiset(Place(scores, i, order)) == multiset(order) + multiset{i}
    ensures forall x :: x in Place(scores, i, order) <==> x in order || x == i
    ensures forall p :: 0 <= p < |Place(scores, i, order)| ==> Place(scores, i, order)[p] in order + [i]
  {
    var now := Place(scores, i, order);
    if order == [] || scores[i] >= scores[order[0]] {
      assert now == [i] + order;
    } else {
      PlaceMembers(scores, i, order[1..]);
      assert now == [order[0]] + Place(scores, i, order[1..]);
      assert order == [order[0]] + order[1..];
    }
    hide Place;
    OneMoreMember(now, order, i);
  }

  lemma OneMoreMember(now: seq<nat>, order: seq<nat>, i: nat)
    requires multiset(now) == multiset(order) + multiset{i}
    ensures forall x :: x in now <==> x in order || x == i
    ensures forall p :: 0 <= p < |now| ==> now[p] in order + [i]
  {
    forall x ensures x in now <==> x in order || x == i {
      assert x in now <==> x in multiset(now);
      assert x in order <==> x in multiset(order);
    }
    forall p | 0 <= p < |now| ensures now[p] in order + [i] {
      assert now[p] in now;
    }
  }

  /** A sorted list stays sorted behind a new index that scores at least as high. */
  lemma ConsKeepsOrder(scores: seq<real>, x: nat, rest: seq<nat>)
    requires x < |scores| && Indices(rest, |scores|) && Descending(scores, rest)
    requires forall p :: 0 <= p < |rest| ==> rest[p] != x && scores[x] >= scores[rest[p]]
    ensures Indices([x] + rest, |scores|) && Descending(scores, [x] + rest)
  {
  }

  lemma TailKeepsOrder(scores: seq<real>, order: seq<nat>)
    requires order != [] && Indices(order, |scores|) && Descending(scores, order)
    ensures Indices(order[1..], |scores|) && Descending(scores, order[1..])
    ensures forall p :: 0 <= p < |order[1..]| ==> order[1..][p] != order[0] && scores[order[0]] >= scores[order[1..][p]]
  {
  }

  lemma {:induction false} PlaceKeepsOrder(scores: seq<real>, i: nat, order: seq<nat>)
    requires i < |scores| && Indices(order, |scores|) && Descending(scores, order) && i !in order
    ensures var now := Place(scores, i, order);
            |now| == |order| + 1 && Indices(now, |scores|) && Descending(scores, now)
  {
    if order == [] || scores[i] >= scores[order[0]] {
      ConsKeepsOrder(scores, i, order);
    } else {
      var tail := order[1..];
      TailKeepsOrder(scores, order);
      PlaceKeepsOrder(scores, i, tail);
      PlaceMembers(scores, i, tail);
      var rest := Place(scores, i, tail);
      hide Place, Descending;
      forall q | 0 <= q < |rest| ensures rest[q] != order[0] && scores[order[0]] >= scores[rest[q]] {
        assert rest[q] in tail + [i];
      }
      ConsKeepsOrder(scores, order[0], rest);
    }
  }

  lemma {:induction false} OrderUpTo(scores: seq<real>, n: nat)
    requires n <= |scores|
    ensures var order := Order(scores, n);
      && |order| == n && Indices(order, |scores|) && Descending(scores, order)
      && forall i :: 0 <= i < n <==> i in order
  {
    if n == 0 {
    } else {
      var before := Order(scores, n - 1);
      OrderUpTo(scores, n - 1);
      assert n - 1 !in before && Order(scores, n) == Place(scores, n - 1, before);
      hide Order, Place, Indices, Descending;
      PlaceMembers(scores, n - 1, before);
      PlaceKeepsOrder(scores, n - 1, before);
    }
  }

  lemma OrderIsSortedPermutation(scores: seq<real>)
    ensures var order := Order(scores, |scores|);
      && |order| == |scores| && Indices(order, |scores|) && Descending(scores, order)
      && forall i :: 0 <= i < |scores| <==> i in order
  {
    OrderUpTo(scores, |scores|);
  }

  function AtLeast(scores: seq<real>, order: seq<nat>, minScore: real): seq<nat>
    requires forall p :: 0 <= p < |order| ==> order[p] < |scores|
  {
    if order == [] then []
    else
      var rest := AtLeast(scores, order[..|order| - 1], minScore);
      var i := order[|order| - 1];
      if scores[i] >= minScore then rest + [i] else rest
  }

  /** The indices `search` returns. */
  function Hits(scores: seq<real>, k: nat, minScore: real): seq<nat> {
    var order := Order(scores, |scores|);
    AtLeast(scores, Take(order, k), minScore)
  }

  /** `xs[:k]`. */
  function Take<T>(xs: seq<T>, k: nat): seq<T> {
    if k < |xs| then xs[..k] else xs
  }

  /** The first f of a ranking reach the threshold and the others do not. */
  ghost predicate IsCutAt(scores: seq<real>, order: seq<nat>, f: nat, minScore: real)
    requires Indices(order, |scores|)
  {
    && f <= |order|
    && (forall p :: 0 <= p < f ==> scores[order[p]] >= minScore)
    && (forall p :: f <= p < |order| ==> scores[order[p]] < minScore)
  }

  /** A descending ranking can be cut in two. */
  lemma {:induction false} CutExists(scores: seq<real>, order: seq<nat>, minScore: real) returns (f: nat)
    requires Indices(order, |scores|) && Descending(scores, order)
    ensures IsCutAt(scores, order, f, minScore)
    decreases |order|
  {
    if order == [] || scores[order[|order| - 1]] >= minScore {
      f := |order|;
    } else {
      PrefixKeepsOrder(scores, order, |order| - 1);
      f := CutExists(scores, order[..|order| - 1], minScore);
    }
  }

  lemma {:induction false} AtLeastIsTheCut(scores: seq<real>, order: seq<nat>, f: nat, minScore: real)
    requires Indices(order, |scores|) && IsCutAt(scores, order, f, minScore)
    ensures AtLeast(scores, order, minScore) == order[..f]
  {
    if order == [] {
    } else {
      var n := |order| - 1;
      if f == |order| {
        AtLeastIsTheCut(scores, order[..n], n, minScore);
        assert order[..f] == order[..n] + [order[n]];
      } else {
        AtLeastIsTheCut(scores, order[..n], f, minScore);
        assert order[..n][..f] == order[..f];
      }
    }
  }

  /** In a descending list the threshold keeps a prefix. */
  lemma ThresholdKeepsAPrefix(scores: seq<real>, order: seq<nat>, minScore: real)
    requires Indices(order, |scores|) && Descending(scores, order)
    ensures IsCutAt(scores, order, |AtLeast(scores, order, minScore)|, minScore)
    ensures AtLeast(scores, order, minScore) == order[..|AtLeast(scores, order, minScore)|]
  {
    var f := CutExists(scores, order, minScore);
    AtLeastIsTheCut(scores, order, f, minScore);
    hide AtLeast, Indices, Descending;
  }

  /** A chunk left out scores below the threshold, or no higher than all k returned. */
  ghost predicate RightlyLeftOut(scores: seq<real>, found: seq<nat>, k: nat, minScore: real, i: nat)
    requires i < |scores| && Indices(found, |scores|)
  {
    scores[i] < minScore || (|found| == k && forall p :: 0 <= p < k ==> scores[found[p]] >= scores[i])
  }

  /** The search result is a descending list of distinct stored chunks at or above the threshold,
      at most k of them, and nothing better was left out. */
  lemma SearchReturnsTheTopK(scores: seq<real>, k: nat, minScore: real)
    ensures var found := Hits(scores, k, minScore);
      && |found| <= k && Indices(found, |scores|) && Descending(scores, found)
      && (forall p :: 0 <= p < |found| ==> scores[found[p]] >= minScore)
      && (forall i: nat :: i < |scores| && i !in found ==> RightlyLeftOut(scores, found, k, minScore, i))
  {
    hide Order, AtLeast, Descending, RightlyLeftOut;
    OrderIsSortedPermutation(scores);
    var order := Order(scores, |scores|);
    var n := |Take(order, k)|;
    assert Take(order, k) == order[..n];
    PrefixKeepsOrder(scores, order, n);
    ThresholdKeepsAPrefix(scores, order[..n], minScore);
    var found := Hits(scores, k, minScore);
    var f := |found|;
    assert found == order[..f];
    PrefixKeepsOrder(scores, order, f);
    forall i: nat | i < |scores| && i !in found ensures RightlyLeftOut(scores, found, k, minScore, i) {
      assert i in order;
      assert forall p :: 0 <= p < f ==> order[p] == found[p] && found[p] in found;
      LeftOut(scores, order, n, k, f, minScore, i);
    }
  }

  lemma PrefixKeepsOrder(scores: seq<real>, order: seq<nat>, n: nat)
    requires n <= |order| && Indices(order, |scores|) && Descending(scores, order)
    ensures Indices(order[..n], |scores|) && Descending(scores, order[..n])
  {
  }

  lemma LeftOut(scores: seq<real>, order: seq<nat>, n: nat, k: nat, f: nat, minScore: real, i: nat)
    requires f <= n <= |order| && (n < |order| ==> n == k)
    requires Indices(order, |scores|) && Descending(scores, order)
    requires i in order && forall p :: 0 <= p < f ==> order[p] != i
    requires forall p :: f <= p < n ==> scores[order[..n][p]] < minScore
    ensures Indices(order[..f], |scores|) && RightlyLeftOut(scores, order[..f], k, minScore, i)
  {
    var q :| 0 <= q < |order| && order[q] == i;
    if f <= q < n {
      assert scores[order[..n][q]] < minScore;
    } else if f < n {
      assert scores[order[..n][f]] < minScore && scores[order[f]] >= scores[order[q]];
    }
  }
}
