/**
 * The retrieval index of loop closure: three backends, a bounded reservoir, and place hypotheses over the indexed
 * keyframes.
 */
module LoopIndex {
  import opened RigidMotion
  import opened Ordering
  import opened RealSums
  import opened BowVectors
  import opened Scoring
  import opened InvertedFile

  datatype Backend = Off | Compact | Flat | Inverted

  datatype Cached = Cached(submap: nat, T_ws: SE3, position: Vec3, serial: nat)

  datatype Hypothesis = Hypothesis(representative: nat, submap: nat, anchor: nat, lastQuery: nat,
                                   lastSeen: nat, support: nat, best: real)

  /** A place found by a query: its best keyframe. */
  datatype Place = Place(id: nat, submap: nat, score: real)

  /** The entry with the smallest insertion serial. */
  ghost predicate Oldest(cache: map<nat, Cached>, id: nat) {
    id in cache && forall x :: x in cache ==> cache[id].serial <= cache[x].serial
  }

  ghost predicate SerialsDistinct(cache: map<nat, Cached>, last: nat) {
    && (forall x :: x in cache ==> 1 <= cache[x].serial <= last)
    && (forall x, y {:trigger cache[x].serial, cache[y].serial} :: x in cache && y in cache && x != y ==>
          cache[x].serial != cache[y].serial)
  }

  /** No hypothesis names a keyframe outside the index, and its support counts distinct queries only. */
  ghost predicate Grounded(h: Hypothesis, known: set<nat>, serial: nat) {
    h.anchor in known && h.representative == h.anchor && 1 <= h.support <= h.lastSeen <= serial
  }

  ghost predicate AllGrounded(hs: seq<Hypothesis>, known: set<nat>, serial: nat) {
    forall i :: 0 <= i < |hs| ==> Grounded(hs[i], known, serial)
  }

  function KeepUnnamed(hs: seq<Hypothesis>, removed: set<nat>): (r: seq<Hypothesis>)
    ensures forall h :: h in r <==> h in hs && h.anchor !in removed && h.representative !in removed
  {
    if hs == [] then []
    else if hs[0].anchor in removed || hs[0].representative in removed then KeepUnnamed(hs[1..], removed)
    else [hs[0]] + KeepUnnamed(hs[1..], removed)
  }

  lemma KeepsGrounded(hs: seq<Hypothesis>, removed: set<nat>, known: set<nat>, serial: nat)
    requires AllGrounded(hs, known, serial)
    ensures AllGrounded(KeepUnnamed(hs, removed), known - removed, serial)
  {
    var r := KeepUnnamed(hs, removed);
    forall i | 0 <= i < |r|
      ensures Grounded(r[i], known - removed, serial)
    {
      assert r[i] in hs;
    }
  }

  /** Entry ids and keyframe ids are inverse to each other, and every entry holds its keyframe's bag. */
  ghost predicate Filed(bows: map<nat, seq<Entry>>, toEntry: map<nat, nat>, toKeyframe: map<nat, nat>,
                        entries: seq<Table>) {
    && toEntry.Keys == bows.Keys
    && (forall id :: id in toEntry ==>
          toEntry[id] < |entries| && toEntry[id] in toKeyframe && toKeyframe[toEntry[id]] == id)
    && (forall e: nat :: e in toKeyframe <==> e < |entries|)
    && (forall e :: e in toKeyframe ==> toKeyframe[e] in toEntry && toEntry[toKeyframe[e]] == e)
    && (forall id :: id in bows ==> WordsIncrease(bows[id]))
    && (forall id :: id in toEntry && toEntry[id] < |entries| ==> entries[toEntry[id]] == BagOf(bows[id]))
  }

  lemma FiledMore(bows: map<nat, seq<Entry>>, toEntry: map<nat, nat>, toKeyframe: map<nat, nat>, entries: seq<Table>,
                  id: nat, bow: seq<Entry>)
    requires Filed(bows, toEntry, toKeyframe, entries) && id !in bows && WordsIncrease(bow)
    ensures Filed(bows[id := bow], toEntry[id := |entries|], toKeyframe[|entries| := id], entries + [BagOf(bow)])
  {
    hide WordsIncrease, BagOf;
  }

  lemma FiledNone()
    ensures Filed(map[], map[], map[], [])
  {
  }

  // ---- choosing the entry a full reservoir gives up -------------------------------

  function Serials(cache: map<nat, Cached>): set<nat> {
    set id | id in cache :: cache[id].serial
  }

  lemma {:induction false} SerialCount(cache: map<nat, Cached>, last: nat)
    requires SerialsDistinct(cache, last)
    ensures |Serials(cache)| == |cache|
    decreases |cache|
  {
    if cache != map[] {
      var id :| id in cache;
      var rest := cache - {id};
      assert rest.Keys == cache.Keys - {id};
      SerialCount(rest, last);
      SerialsWithout(cache, last, id);
    } else {
      assert Serials(cache) == {};
    }
  }

  lemma SerialsWithout(cache: map<nat, Cached>, last: nat, id: nat)
    requires SerialsDistinct(cache, last) && id in cache
    ensures Serials(cache) == Serials(cache - {id}) + {cache[id].serial}
    ensures cache[id].serial !in Serials(cache - {id})
  {
    var rest := cache - {id};
    forall s | s in Serials(cache)
      ensures s in Serials(rest) + {cache[id].serial}
    {
      var y :| y in cache && cache[y].serial == s;
      if y != id {
        assert y in rest && rest[y].serial == s;
      }
    }
    forall s | s in Serials(rest)
      ensures s in Serials(cache) && s != cache[id].serial
    {
      var y :| y in rest && rest[y].serial == s;
      assert y in cache && cache[y].serial == s && y != id;
    }
  }

  /** Position of the victim in the timeline: the newest, or a drawn one that is never the first. */
  function VictimIndex(size: nat, limit: nat, selected: nat): (i: nat)
    requires 1 <= limit < size
    ensures i < size && i >= 1
  {
    if selected < limit - 1 then 1 + selected else size - 1
  }

  /** The deterministic mixer the draw is taken from, on 64-bit words. */
  function Mix(serial: bv64): bv64 {
    var a := serial + 0x9e37_79b9_7f4a_7c15;
    var b := (a ^ (a >> 30)) * 0xbf58_476d_1ce4_e5b9;
    var c := (b ^ (b >> 27)) * 0x94d0_49bb_1331_11eb;
    c ^ (c >> 31)
  }

  function Mixed(serial: nat): nat {
    Mix((serial % 0x1_0000_0000_0000_0000) as bv64) as nat
  }

  /** The published first values of that mixer. */
  lemma {:induction false} MixerReference()
    ensures Mix(0) == 0xe220_a839_7b1d_cdaf
    ensures Mix(0x9e37_79b9_7f4a_7c15) == 0x6e78_9e6a_a1b9_65f4
  {
  }

  ghost function OlderThan(cache: map<nat, Cached>, id: nat): set<nat>
    requires id in cache
  {
    set x | x in cache && cache[x].serial < cache[id].serial
  }

  /** The entry the draw gives up: the one after the first, the second, and so on, and beyond the slots the newest. */
  ghost predicate IsVictim(cache: map<nat, Cached>, limit: nat, last: nat, random: nat, id: nat) {
    var draw := random % (if last > 1 then last else 1);
    id in cache && |OlderThan(cache, id)| == if draw < limit - 1 then draw + 1 else |cache| - 1
  }

  /**
   * Of the draws below the number of entries so far, none gives up the oldest, one gives up each of the others and the
   * rest reject the newest.
   */
  lemma {:induction false} VictimDraws(cache: map<nat, Cached>, limit: nat, last: nat, id: nat)
    requires SerialsDistinct(cache, last) && 1 <= limit && |cache| == limit + 1 && id in cache
    ensures var draws := set d: nat | d < last && IsVictim(cache, limit, last, d, id);
            |draws| == if Oldest(cache, id) then 0 else if Newest(cache, id) then last - (limit - 1) else 1
  {
    hide Oldest, Newest, SerialsDistinct, OlderThan, IsVictim, GivenUp;
    NoMoreThanSerials(cache, last);
    ByRank(cache, last, id);
    var rank := |OlderThan(cache, id)|;
    assert (set d: nat | d < last && IsVictim(cache, limit, last, d, id)) == DrawsOf(rank, limit, last) by {
      forall d: nat | d < last
        ensures IsVictim(cache, limit, last, d, id) <==> rank == GivenUp(d, limit)
      {
        DrawGives(cache, limit, last, d, id);
      }
    }
    DrawCount(rank, limit, last);
  }

  lemma DrawGives(cache: map<nat, Cached>, limit: nat, last: nat, draw: nat, id: nat)
    requires 1 <= limit && |cache| == limit + 1 && id in cache && draw < last
    ensures IsVictim(cache, limit, last, draw, id) <==> |OlderThan(cache, id)| == GivenUp(draw, limit)
  {
    hide OlderThan;
    assert draw % last == draw;
  }

  /** The number of older entries the entry given up has, in an index one entry over its limit. */
  function GivenUp(draw: nat, limit: nat): nat {
    if draw < limit - 1 then draw + 1 else limit
  }

  function DrawsOf(rank: nat, limit: nat, last: nat): set<nat> {
    set d: nat | d < last && rank == GivenUp(d, limit)
  }

  lemma DrawCount(rank: nat, limit: nat, last: nat)
    requires 1 <= limit < last && rank <= limit
    ensures |DrawsOf(rank, limit, last)| == if rank == 0 then 0 else if rank == limit then last - (limit - 1) else 1
  {
    if rank == 0 {
      assert DrawsOf(rank, limit, last) == {};
    } else if rank == limit {
      assert DrawsOf(rank, limit, last) == Span(limit - 1, last);
      SpanSize(limit - 1, last);
    } else {
      assert DrawsOf(rank, limit, last) == {rank - 1};
    }
  }

  ghost predicate Newest(cache: map<nat, Cached>, id: nat) {
    id in cache && forall x :: x in cache ==> cache[x].serial <= cache[id].serial
  }

  predicate AtLeast(a: nat, d: nat) {
    a <= d
  }

  function Span(a: nat, b: nat): set<nat> {
    set d: nat | d < b && AtLeast(a, d)
  }

  lemma {:induction false} SpanSize(a: nat, b: nat)
    requires a <= b
    ensures |Span(a, b)| == b - a
    decreases b
  {
    if a < b {
      SpanSize(a, b - 1);
      assert Span(a, b) == Span(a, b - 1) + {b - 1};
    } else {
      assert Span(a, b) == {};
    }
  }

  lemma NoMoreThanSerials(cache: map<nat, Cached>, last: nat)
    requires SerialsDistinct(cache, last)
    ensures |cache| <= last
  {
    SerialCount(cache, last);
    SpanSize(1, last + 1);
    SubsetSize(Serials(cache), Span(1, last + 1));
  }

  lemma ByRank(cache: map<nat, Cached>, last: nat, id: nat)
    requires SerialsDistinct(cache, last) && id in cache
    ensures |OlderThan(cache, id)| < |cache|
    ensures Oldest(cache, id) <==> |OlderThan(cache, id)| == 0
    ensures Newest(cache, id) <==> |OlderThan(cache, id)| == |cache| - 1
  {
    var older, others := OlderThan(cache, id), cache.Keys - {id};
    SubsetSize(older, others);
    if |older| == |others| {
      assert others == older + (others - older);
      assert others - older == {};
      forall x | x in cache && x != id
        ensures cache[x].serial <= cache[id].serial
      {
        assert x in older;
      }
    }
    if Newest(cache, id) {
      assert older == others;
    }
    if !Oldest(cache, id) {
      var x :| x in cache && cache[x].serial < cache[id].serial;
      assert x in older;
    } else {
      assert older == {};
    }
  }

  method Victim(cache: map<nat, Cached>, limit: nat, last: nat, random: nat) returns (id: nat)
    requires SerialsDistinct(cache, last) && 1 <= limit < |cache|
    ensures id in cache && IsVictim(cache, limit, last, random, id) && !Oldest(cache, id)
  {
    hide Increasing;
    SerialCount(cache, last);
    var timeline := Ascending(Serials(cache));
    var selected := random % (if last > 1 then last else 1);
    var index := VictimIndex(|timeline|, limit, selected);
    SerialIsHeld(cache, timeline, index);
    id :| id in cache && cache[id].serial == timeline[index];
    FirstIsOlder(cache, timeline, index, id);
    PositionCounts(cache, last, timeline, index, id);
  }

  /** The position in the timeline is the number of older entries. */
  lemma PositionCounts(cache: map<nat, Cached>, last: nat, timeline: seq<nat>, index: nat, id: nat)
    requires SerialsDistinct(cache, last) && Increasing(timeline) && index < |timeline|
    requires (forall x :: x in timeline <==> x in Serials(cache)) && id in cache && cache[id].serial == timeline[index]
    ensures |OlderThan(cache, id)| == index
  {
    var older := map x | x in OlderThan(cache, id) :: cache[x];
    SerialCount(older, last);
    FrontSize(timeline, index);
    forall s | s in Front(timeline, index)
      ensures s in Serials(older)
    {
      FrontMembers(timeline, index);
      SerialHolder(cache, timeline, s);
      var x :| x in cache && cache[x].serial == s;
      assert x in older && older[x].serial == s;
    }
    forall s | s in Serials(older)
      ensures s in Front(timeline, index)
    {
      FrontMembers(timeline, index);
      var x :| x in older && older[x].serial == s;
      assert s in Serials(cache);
    }
    assert Serials(older) == Front(timeline, index);
    assert older.Keys == OlderThan(cache, id);
  }

  lemma SerialHolder(cache: map<nat, Cached>, timeline: seq<nat>, s: nat)
    requires s in timeline && forall x :: x in timeline <==> x in Serials(cache)
    ensures exists id :: id in cache && cache[id].serial == s
  {
  }

  lemma SerialIsHeld(cache: map<nat, Cached>, timeline: seq<nat>, index: nat)
    requires index < |timeline| && forall x :: x in timeline <==> x in Serials(cache)
    ensures exists id :: id in cache && cache[id].serial == timeline[index]
  {
    assert timeline[index] in timeline;
  }

  lemma FirstIsOlder(cache: map<nat, Cached>, timeline: seq<nat>, index: nat, id: nat)
    requires Increasing(timeline) && 1 <= index < |timeline| && forall x :: x in timeline <==> x in Serials(cache)
    requires id in cache && cache[id].serial == timeline[index]
    ensures !Oldest(cache, id)
  {
    SerialIsHeld(cache, timeline, 0);
    var first :| first in cache && cache[first].serial == timeline[0];
    assert cache[first].serial < cache[id].serial;
  }

  // ---- what is stored, as a value ----------------------------------------------------

  /** The cache with each backend's content per keyframe, and the hypotheses. */
  datatype Store = Store(cache: map<nat, Cached>, signatures: map<nat, nat>, flatBows: map<nat, seq<Entry>>,
                         bows: map<nat, seq<Entry>>, hypotheses: seq<Hypothesis>)

  const NOTHING := Store(map[], map[], map[], map[], [])

  /** The active backend holds exactly the cached keyframes, the others nothing. */
  ghost predicate KeySets(s: Store, backend: Backend) {
    && s.signatures.Keys == (if backend == Compact then s.cache.Keys else {})
    && s.flatBows.Keys == (if backend == Flat then s.cache.Keys else {})
    && s.bows.Keys == (if backend == Inverted then s.cache.Keys else {})
    && (backend == Off ==> s.cache == map[])
  }

  ghost predicate Sound(s: Store, backend: Backend, serial: nat, querySerial: nat) {
    && KeySets(s, backend) && SerialsDistinct(s.cache, serial) && AllGrounded(s.hypotheses, s.cache.Keys, querySerial)
    && (forall id :: id in s.bows ==> WordsIncrease(s.bows[id]))
    && (forall id :: id in s.flatBows ==> WordsIncrease(s.flatBows[id]))
  }

  function Evicted(s: Store, removed: set<nat>): Store {
    Store(s.cache - removed, s.signatures - removed, s.flatBows - removed, s.bows - removed,
          KeepUnnamed(s.hypotheses, removed))
  }

  lemma {:induction false} EvictedSound(s: Store, backend: Backend, serial: nat, querySerial: nat, removed: set<nat>)
    requires Sound(s, backend, serial, querySerial)
    ensures Sound(Evicted(s, removed), backend, serial, querySerial)
  {
    hide SerialsDistinct, AllGrounded, WordsIncrease, KeySets;
    EvictedKeys(s, backend, removed);
    EvictedSerials(s.cache, serial, removed);
    KeepsGrounded(s.hypotheses, removed, s.cache.Keys, querySerial);
    assert (s.cache - removed).Keys == s.cache.Keys - removed;
  }

  lemma EvictedKeys(s: Store, backend: Backend, removed: set<nat>)
    requires KeySets(s, backend)
    ensures KeySets(Evicted(s, removed), backend)
  {
  }

  lemma EvictedSerials(cache: map<nat, Cached>, last: nat, removed: set<nat>)
    requires SerialsDistinct(cache, last)
    ensures SerialsDistinct(cache - removed, last)
  {
  }

  function Added(s: Store, backend: Backend, id: nat, c: Cached, signature: nat, bow: seq<Entry>): Store {
    Store(s.cache[id := c],
          if backend == Compact then s.signatures[id := signature] else s.signatures,
          if backend == Flat then s.flatBows[id := bow] else s.flatBows,
          if backend == Inverted then s.bows[id := bow] else s.bows,
          s.hypotheses)
  }

  lemma {:induction false} AddedSound(s: Store, backend: Backend, serial: nat, querySerial: nat, id: nat, c: Cached,
                                      signature: nat, bow: seq<Entry>)
    requires Sound(s, backend, serial, querySerial) && backend != Off && id !in s.cache
    requires c.serial == serial + 1 && WordsIncrease(bow)
    ensures Sound(Added(s, backend, id, c, signature, bow), backend, serial + 1, querySerial)
    ensures |Added(s, backend, id, c, signature, bow).cache| == |s.cache| + 1
  {
    hide SerialsDistinct, AllGrounded, WordsIncrease, KeySets, Added;
    AddedKeys(s, backend, id, c, signature, bow);
    MoreSerials(s.cache, serial, id, c);
    MoreGrounded(s.hypotheses, s.cache.Keys, id, querySerial);
    AddedRest(s, backend, id, c, signature, bow);
  }

  lemma AddedRest(s: Store, backend: Backend, id: nat, c: Cached, signature: nat, bow: seq<Entry>)
    requires WordsIncrease(bow) && forall x :: x in s.bows ==> WordsIncrease(s.bows[x])
    requires forall x :: x in s.flatBows ==> WordsIncrease(s.flatBows[x])
    ensures var t := Added(s, backend, id, c, signature, bow);
            && t.cache == s.cache[id := c] && t.cache.Keys == s.cache.Keys + {id} && t.hypotheses == s.hypotheses
            && (forall x :: x in t.bows ==> WordsIncrease(t.bows[x]))
            && (forall x :: x in t.flatBows ==> WordsIncrease(t.flatBows[x]))
  {
    hide WordsIncrease;
  }

  lemma AddedKeys(s: Store, backend: Backend, id: nat, c: Cached, signature: nat, bow: seq<Entry>)
    requires KeySets(s, backend) && backend != Off
    ensures KeySets(Added(s, backend, id, c, signature, bow), backend)
  {
  }

  lemma MoreSerials(cache: map<nat, Cached>, last: nat, id: nat, c: Cached)
    requires SerialsDistinct(cache, last) && c.serial == last + 1 && id !in cache
    ensures SerialsDistinct(cache[id := c], last + 1) && |cache[id := c]| == |cache| + 1
  {
    assert cache[id := c].Keys == cache.Keys + {id};
  }

  lemma MoreGrounded(hs: seq<Hypothesis>, known: set<nat>, id: nat, serial: nat)
    requires AllGrounded(hs, known, serial)
    ensures AllGrounded(hs, known + {id}, serial)
  {
  }

  lemma OneFewer(cache: map<nat, Cached>, id: nat)
    requires id in cache
    ensures |cache - {id}| == |cache| - 1
  {
    assert (cache - {id}).Keys == cache.Keys - {id};
  }

  lemma NoMoreEntries(cache: map<nat, Cached>, removed: set<nat>)
    ensures |cache - removed| <= |cache|
  {
    assert cache.Keys == (cache - removed).Keys + (cache.Keys * removed);
  }

  lemma NothingSound(backend: Backend)
    ensures Sound(NOTHING, backend, 0, 0) && NOTHING.cache == map[] && NOTHING.hypotheses == [] && NOTHING.bows == map[]
  {
  }

  /** after is before, or before without one entry that is not its oldest. */
  ghost predicate TrimmedTo(before: map<nat, Cached>, after: map<nat, Cached>) {
    after == before || exists id :: id in before && !Oldest(before, id) && after == before - {id}
  }

  /** A full reservoir gives up the drawn entry, with every hypothesis naming it, and nothing else. */
  ghost predicate Trimmed(before: Store, after: Store, limit: nat, last: nat, random: nat) {
    if |before.cache| <= limit then after == before
    else exists id :: IsVictim(before.cache, limit, last, random, id) && after == Evicted(before, {id})
  }

  /** So the oldest entry survives every trim. */
  lemma {:induction false} OldestSurvives(before: map<nat, Cached>, after: map<nat, Cached>, id: nat)
    requires TrimmedTo(before, after) && Oldest(before, id)
    ensures Oldest(after, id) && after[id] == before[id]
  {
  }

  // ---- hypotheses over queries ---------------------------------------------------------

  const MAX_HYPOTHESES: nat := 256
  const LIFETIME: nat := 128

  /** A hypothesis and a place belong together: same submap, anchor at most gap away. */
  predicate SamePlace(h: Hypothesis, p: Place, gap: nat) {
    h.submap == p.submap && (if h.anchor >= p.id then h.anchor - p.id <= gap else p.id - h.anchor <= gap)
  }

  method FindPlace(hs: seq<Hypothesis>, p: Place, gap: nat) returns (at: nat)
    ensures at <= |hs| && (at < |hs| ==> SamePlace(hs[at], p, gap))
    ensures forall i :: 0 <= i < at ==> !SamePlace(hs[i], p, gap)
  {
    at := 0;
    while at < |hs| && !SamePlace(hs[at], p, gap)
      invariant at <= |hs| && forall i :: 0 <= i < at ==> !SamePlace(hs[i], p, gap)
    {
      at := at + 1;
    }
  }

  /** Seen again: one more distinct query if the gap was short, else the count restarts; a better view takes over. */
  function SeenAgain(h: Hypothesis, p: Place, query: nat, serial: nat): Hypothesis {
    var support :=
      if h.lastQuery == query then h.support
      else if serial <= h.lastSeen + 2 then h.support + 1
      else 1;
    var seen := h.(support := support, lastQuery := query, lastSeen := serial);
    if p.score >= h.best then seen.(representative := p.id, anchor := p.id, best := p.score) else seen
  }

  /** The same query never raises the support of a hypothesis twice. */
  lemma {:induction false} SeenTwiceInOneQuery(h: Hypothesis, p: Place, r: Place, query: nat, serial: nat)
    ensures SeenAgain(SeenAgain(h, p, query, serial), r, query, serial).support
         == SeenAgain(h, p, query, serial).support
    ensures SeenAgain(h, p, query, serial).support <= h.support + 1 || SeenAgain(h, p, query, serial).support == 1
  {
  }

  /** During a query: grounded, and what was already seen now was seen by this query. */
  ghost predicate InQuery(hs: seq<Hypothesis>, known: set<nat>, query: nat, serial: nat) {
    forall i :: 0 <= i < |hs| ==>
      Grounded(hs[i], known, serial) && (hs[i].lastSeen < serial || hs[i].lastQuery == query)
  }

  /** The place names the hypothesis. */
  predicate Shows(h: Hypothesis, p: Place) {
    h.representative == h.anchor == p.id && h.best == p.score && h.submap == p.submap
  }

  /** The hypotheses after a place was seen: the first one that matches takes it up, else it opens a new one. */
  function Observed(hs: seq<Hypothesis>, p: Place, query: nat, serial: nat, gap: nat): seq<Hypothesis> {
    if hs == [] then [Hypothesis(p.id, p.submap, p.id, query, serial, 1, p.score)]
    else if SamePlace(hs[0], p, gap) then [SeenAgain(hs[0], p, query, serial)] + hs[1..]
    else [hs[0]] + Observed(hs[1..], p, query, serial, gap)
  }

  /**
   * The place is then covered by a hypothesis seen in this query, the first one it belongs to, and at most that one
   * differs from before.
   */
  lemma {:induction false} PlaceIsObserved(hs: seq<Hypothesis>, p: Place, query: nat, serial: nat,
                                           gap: nat) returns (at: nat)
    ensures var r := Observed(hs, p, query, serial, gap);
            && at < |r| && SamePlace(r[at], p, gap) && r[at].lastSeen == serial && r[at].lastQuery == query
            && at <= |hs| <= |r| <= |hs| + 1
            && forall i :: 0 <= i < |hs| && i != at ==> r[i] == hs[i]
    ensures (at < |hs| ==> SamePlace(hs[at], p, gap)) && forall i :: 0 <= i < at ==> !SamePlace(hs[i], p, gap)
    ensures var r := Observed(hs, p, query, serial, gap)[at];
            if at == |hs| || p.score >= hs[at].best then Shows(r, p)
            else (r.representative, r.anchor, r.best) == (hs[at].representative, hs[at].anchor, hs[at].best)
  {
    if hs == [] || SamePlace(hs[0], p, gap) {
      at := 0;
    } else {
      var rest := PlaceIsObserved(hs[1..], p, query, serial, gap);
      at := rest + 1;
    }
  }

  lemma {:induction false} ObservedAt(hs: seq<Hypothesis>, p: Place, query: nat, serial: nat, gap: nat, at: nat)
    requires at <= |hs| && (at < |hs| ==> SamePlace(hs[at], p, gap))
    requires forall i :: 0 <= i < at ==> !SamePlace(hs[i], p, gap)
    ensures Observed(hs, p, query, serial, gap) ==
            if at == |hs| then hs + [Hypothesis(p.id, p.submap, p.id, query, serial, 1, p.score)]
            else hs[at := SeenAgain(hs[at], p, query, serial)]
  {
    hide SamePlace, SeenAgain;
    if at > 0 {
      assert !SamePlace(hs[0], p, gap);
      ObservedAt(hs[1..], p, query, serial, gap, at - 1);
    }
  }

  function ObservedAll(hs: seq<Hypothesis>, places: seq<Place>, query: nat, serial: nat, gap: nat): seq<Hypothesis>
    decreases |places|
  {
    if places == [] then hs
    else Observed(ObservedAll(hs, places[..|places| - 1], query, serial, gap), places[|places| - 1], query, serial, gap)
  }

  /**
   * What a query with these places makes of a hypothesis. Either it is not seen, or one of the places belongs to it and
   * its support grows by one if it missed at most one query, restarts if it missed more, and stays if the same keyframe
   * asked before; the best view so far names it.
   */
  ghost predicate Continues(a: Hypothesis, b: Hypothesis, places: seq<Place>, query: nat, serial: nat, gap: nat) {
    || b == a
    || (&& b.submap == a.submap && b.lastQuery == query && b.lastSeen == serial && b.best >= a.best
        && (a.lastQuery == query ==> b.support == a.support)
        && (a.lastQuery != query && serial <= a.lastSeen + 2 ==> b.support == a.support + 1)
        && (a.lastQuery != query && serial > a.lastSeen + 2 ==> b.support == 1)
        && (exists p :: p in places && SamePlace(a, p, gap))
        && (b.(support := a.support, lastQuery := a.lastQuery, lastSeen := a.lastSeen) == a
            || exists p :: p in places && Shows(b, p)))
  }

  /** A hypothesis this query opened. */
  ghost predicate Opened(h: Hypothesis, places: seq<Place>, query: nat, serial: nat) {
    h.support == 1 && h.lastQuery == query && h.lastSeen == serial && exists p :: p in places && Shows(h, p)
  }

  /** The hypotheses after some places: those from before, in order, and then the opened ones. */
  ghost predicate Continued(hs: seq<Hypothesis>, r: seq<Hypothesis>, places: seq<Place>, query: nat, serial: nat,
                            gap: nat) {
    && |hs| <= |r| && (forall i :: 0 <= i < |hs| ==> Continues(hs[i], r[i], places, query, serial, gap))
    && (forall i :: |hs| <= i < |r| ==> Opened(r[i], places, query, serial))
  }

  lemma {:induction false} QueryContinues(hs: seq<Hypothesis>, places: seq<Place>, query: nat, serial: nat, gap: nat)
    ensures Continued(hs, ObservedAll(hs, places, query, serial, gap), places, query, serial, gap)
    decreases |places|
  {
    hide Continues, Opened, SamePlace, SeenAgain, Observed;
    if places == [] {
      forall i | 0 <= i < |hs|
        ensures Continues(hs[i], hs[i], places, query, serial, gap)
      {
        Unseen(hs[i], places, query, serial, gap);
      }
    } else {
      var n := |places| - 1;
      QueryContinues(hs, places[..n], query, serial, gap);
      OnePlaceMore(hs, ObservedAll(hs, places[..n], query, serial, gap), places[..n], places[n], query, serial, gap);
      assert places == places[..n] + [places[n]];
    }
  }

  lemma Unseen(h: Hypothesis, places: seq<Place>, query: nat, serial: nat, gap: nat)
    ensures Continues(h, h, places, query, serial, gap)
  {
  }

  lemma OnePlaceMore(hs: seq<Hypothesis>, now: seq<Hypothesis>, places: seq<Place>, p: Place, query: nat, serial: nat,
                     gap: nat)
    requires Continued(hs, now, places, query, serial, gap)
    ensures Continued(hs, Observed(now, p, query, serial, gap), places + [p], query, serial, gap)
  {
    hide Continues, Opened, SamePlace, SeenAgain, Observed;
    var at := PlaceIsObserved(now, p, query, serial, gap);
    ObservedAt(now, p, query, serial, gap, at);
    var r := Observed(now, p, query, serial, gap);
    forall i | 0 <= i < |hs|
      ensures Continues(hs[i], r[i], places + [p], query, serial, gap)
    {
      StillContinues(hs[i], now[i], places, p, query, serial, gap);
    }
    forall i | |hs| <= i < |r|
      ensures Opened(r[i], places + [p], query, serial)
    {
      if i < |now| {
        StillOpened(now[i], places, p, query, serial, gap);
      } else {
        OpenedNow(places, p, query, serial);
      }
    }
  }

  lemma EachContinues(hs: seq<Hypothesis>, r: seq<Hypothesis>, places: seq<Place>, query: nat, serial: nat, gap: nat)
    requires Continued(hs, r, places, query, serial, gap)
    ensures forall h :: h in r ==>
      Opened(h, places, query, serial) || exists a :: a in hs && Continues(a, h, places, query, serial, gap)
  {
    hide Continues, Opened;
    forall h | h in r
      ensures Opened(h, places, query, serial) || exists a :: a in hs && Continues(a, h, places, query, serial, gap)
    {
      var i :| 0 <= i < |r| && r[i] == h;
      if i < |hs| {
        assert hs[i] in hs;
      }
    }
  }

  lemma StillContinues(a: Hypothesis, b: Hypothesis, places: seq<Place>, p: Place, query: nat, serial: nat, gap: nat)
    requires Continues(a, b, places, query, serial, gap)
    ensures Continues(a, b, places + [p], query, serial, gap)
    ensures SamePlace(b, p, gap) ==> Continues(a, SeenAgain(b, p, query, serial), places + [p], query, serial, gap)
  {
    assert p in places + [p] && forall q :: q in places ==> q in places + [p];
  }

  lemma StillOpened(h: Hypothesis, places: seq<Place>, p: Place, query: nat, serial: nat, gap: nat)
    requires Opened(h, places, query, serial)
    ensures Opened(h, places + [p], query, serial)
    ensures SamePlace(h, p, gap) ==> Opened(SeenAgain(h, p, query, serial), places + [p], query, serial)
  {
    assert p in places + [p] && forall q :: q in places ==> q in places + [p];
  }

  lemma OpenedNow(places: seq<Place>, p: Place, query: nat, serial: nat)
    ensures Opened(Hypothesis(p.id, p.submap, p.id, query, serial, 1, p.score), places + [p], query, serial)
  {
    assert p in places + [p];
  }

  // ---- what the support counts -----------------------------------------------------------

  /** A query that saw the place: when, and by which keyframe. */
  datatype Sighting = Sighting(place: Place, query: nat, serial: nat)

  ghost function SeenOften(h: Hypothesis, seen: seq<Sighting>): Hypothesis {
    if seen == [] then h
    else
      var last := seen[|seen| - 1];
      SeenAgain(SeenOften(h, seen[..|seen| - 1]), last.place, last.query, last.serial)
  }

  function SerialsOf(seen: seq<Sighting>): (r: seq<nat>)
    ensures |r| == |seen| && forall i :: 0 <= i < |r| ==> r[i] == seen[i].serial
  {
    seq(|seen|, i requires 0 <= i < |seen| => seen[i].serial)
  }

  /** n is how many of the last entries follow one another with at most one serial missing between two of them. */
  ghost predicate LastChain(serials: seq<nat>, n: nat) {
    && 1 <= n <= |serials|
    && (forall i :: |serials| - n < i < |serials| ==> serials[i] <= serials[i - 1] + 2)
    && (n < |serials| ==> serials[|serials| - n] > serials[|serials| - n - 1] + 2)
  }

  /** The keyframes that ask differ from one query to the next. */
  ghost predicate Distinguished(h: Hypothesis, seen: seq<Sighting>) {
    forall i :: 0 <= i < |seen| ==> seen[i].query != LastQuery(h, seen, i)
  }

  /** Who asked when the place was last seen, before sighting i. */
  function LastQuery(h: Hypothesis, seen: seq<Sighting>, i: nat): nat
    requires i <= |seen|
  {
    if i == 0 then h.lastQuery else seen[i - 1].query
  }

  lemma NextAsks(h: Hypothesis, seen: seq<Sighting>, n: nat)
    requires Distinguished(h, seen) && n < |seen|
    ensures seen[n].query != LastQuery(h, seen, n)
  {
  }

  lemma FewerDistinguished(h: Hypothesis, seen: seq<Sighting>, n: nat)
    requires Distinguished(h, seen) && n <= |seen|
    ensures Distinguished(h, seen[..n]) && LastQuery(h, seen[..n], n) == LastQuery(h, seen, n)
  {
    assert forall i :: 0 <= i < n ==> LastQuery(h, seen[..n], i) == LastQuery(h, seen, i);
  }

  lemma ChainMore(serials: seq<nat>, n: nat, next: nat)
    requires LastChain(serials, n)
    ensures LastChain(serials + [next], if next <= serials[|serials| - 1] + 2 then n + 1 else 1)
  {
  }

  /** The support of a hypothesis is the length of the last chain of queries that saw it. */
  lemma {:induction false} SupportIsChain(h: Hypothesis, seen: seq<Sighting>)
    requires h.support == 1 && Distinguished(h, seen)
    ensures LastChain([h.lastSeen] + SerialsOf(seen), SeenOften(h, seen).support)
    ensures SeenOften(h, seen).lastQuery == LastQuery(h, seen, |seen|)
    ensures SeenOften(h, seen).lastSeen == if seen == [] then h.lastSeen else seen[|seen| - 1].serial
    decreases |seen|
  {
    hide LastChain, Distinguished;
    if seen != [] {
      var n := |seen| - 1;
      FewerDistinguished(h, seen, n);
      SupportIsChain(h, seen[..n]);
      var before := [h.lastSeen] + SerialsOf(seen[..n]);
      ChainMore(before, SeenOften(h, seen[..n]).support, seen[n].serial);
      assert [h.lastSeen] + SerialsOf(seen) == before + [seen[n].serial];
      NextAsks(h, seen, n);
    } else {
      ChainOfOne(h.lastSeen);
    }
  }

  lemma ChainOfOne(serial: nat)
    ensures LastChain([serial] + SerialsOf([]), 1)
  {
  }

  /** Open a hypothesis for a new place or update the first one that matches. */
  method ObserveOne(hs: seq<Hypothesis>, p: Place, query: nat, serial: nat, gap: nat,
                    ghost known: set<nat>) returns (r: seq<Hypothesis>)
    requires InQuery(hs, known, query, serial) && serial >= 1 && p.id in known
    ensures InQuery(r, known, query, serial) && r == Observed(hs, p, query, serial, gap)
  {
    var at := FindPlace(hs, p, gap);
    ObservedAt(hs, p, query, serial, gap, at);
    if at == |hs| {
      r := hs + [Hypothesis(p.id, p.submap, p.id, query, serial, 1, p.score)];
    } else {
      assert Grounded(hs[at], known, serial);
      r := hs[at := SeenAgain(hs[at], p, query, serial)];
    }
  }

  lemma QueryStarts(hs: seq<Hypothesis>, known: set<nat>, query: nat, serial: nat)
    requires AllGrounded(hs, known, serial)
    ensures InQuery(hs, known, query, serial + 1)
  {
  }

  function Recent(hs: seq<Hypothesis>, serial: nat): (r: seq<Hypothesis>)
    ensures forall h :: h in r <==> h in hs && !(serial > h.lastSeen && serial - h.lastSeen > LIFETIME)
  {
    if hs == [] then []
    else if serial > hs[0].lastSeen && serial - hs[0].lastSeen > LIFETIME then Recent(hs[1..], serial)
    else [hs[0]] + Recent(hs[1..], serial)
  }

  predicate RanksBefore(a: Hypothesis, b: Hypothesis) {
    a.support > b.support || (a.support == b.support && a.lastSeen >= b.lastSeen)
  }

  /** More support ranks first, and then the later sighting. */
  lemma RanksBySupport(a: Hypothesis, b: Hypothesis)
    ensures a.support > b.support ==> RanksBefore(a, b) && !RanksBefore(b, a)
    ensures a.support == b.support && a.lastSeen > b.lastSeen ==> RanksBefore(a, b) && !RanksBefore(b, a)
  {
  }

  predicate Ranked(hs: seq<Hypothesis>) {
    forall i, j :: 0 <= i < j < |hs| ==> RanksBefore(hs[i], hs[j])
  }

  method InsertRanked(hs: seq<Hypothesis>, h: Hypothesis) returns (r: seq<Hypothesis>)
    requires Ranked(hs)
    ensures Ranked(r) && multiset(r) == multiset(hs) + multiset{h}
  {
    hide Ranked;
    var i := 0;
    while i < |hs| && RanksBefore(hs[i], h)
      invariant 0 <= i <= |hs| && forall j :: 0 <= j < i ==> RanksBefore(hs[j], h)
    {
      i := i + 1;
    }
    r := hs[..i] + [h] + hs[i..];
    assert hs == hs[..i] + hs[i..];
    StaysRanked(hs, h, i);
  }

  lemma StaysRanked(hs: seq<Hypothesis>, h: Hypothesis, n: nat)
    requires Ranked(hs) && n <= |hs| && (forall j :: 0 <= j < n ==> RanksBefore(hs[j], h))
    requires (n < |hs| ==> !RanksBefore(hs[n], h))
    ensures Ranked(hs[..n] + [h] + hs[n..])
  {
    var r := hs[..n] + [h] + hs[n..];
    assert forall j :: n <= j < |hs| ==> RanksBefore(h, hs[j]);
    forall i, j | 0 <= i < j < |r|
      ensures RanksBefore(r[i], r[j])
    {
      var a, b := if i < n then i else i - 1, if j < n then j else j - 1;
      assert (i != n ==> r[i] == hs[a]) && (j != n ==> r[j] == hs[b]);
    }
  }

  /** Best supported first, then latest seen. */
  method BestFirst(hs: seq<Hypothesis>) returns (r: seq<Hypothesis>)
    ensures Ranked(r) && multiset(r) == multiset(hs)
  {
    hide Ranked;
    r := [];
    NothingRanked();
    for i := 0 to |hs|
      invariant Ranked(r) && multiset(r) == multiset(hs[..i])
    {
      r := InsertRanked(r, hs[i]);
      assert hs[..i + 1] == hs[..i] + [hs[i]];
    }
    assert hs[..|hs|] == hs;
  }

  /** All recent hypotheses while they fit, else the best ranked ones. */
  ghost predicate KeptBest(recent: seq<Hypothesis>, kept: seq<Hypothesis>) {
    if |recent| <= MAX_HYPOTHESES then kept == recent
    else |kept| == MAX_HYPOTHESES && multiset(kept) <= multiset(recent)
         && forall h, k :: h in multiset(recent) - multiset(kept) && k in kept ==> RanksBefore(k, h)
  }

  lemma PrefixIsBest(recent: seq<Hypothesis>, sorted: seq<Hypothesis>)
    requires Ranked(sorted) && multiset(sorted) == multiset(recent) && |recent| > MAX_HYPOTHESES
    ensures |sorted| == |recent| && KeptBest(recent, sorted[..MAX_HYPOTHESES])
  {
    hide RanksBefore;
    assert |sorted| == |multiset(sorted)| == |multiset(recent)| == |recent|;
    var kept, rest := sorted[..MAX_HYPOTHESES], sorted[MAX_HYPOTHESES..];
    assert sorted == kept + rest;
    forall h, k | h in multiset(recent) - multiset(kept) && k in kept
      ensures RanksBefore(k, h)
    {
      assert h in rest;
      var i :| 0 <= i < |rest| && rest[i] == h;
      var j :| 0 <= j < |kept| && kept[j] == k;
      assert sorted[MAX_HYPOTHESES + i] == h && sorted[j] == k;
    }
  }

  lemma KeptAreRecent(recent: seq<Hypothesis>, kept: seq<Hypothesis>)
    requires KeptBest(recent, kept)
    ensures forall h :: h in kept ==> h in recent
  {
    forall h | h in kept
      ensures h in recent
    {
      assert h in multiset(kept);
    }
  }

  lemma NothingRanked()
    ensures Ranked([])
  {
  }

  lemma QueryEnds(hs: seq<Hypothesis>, kept: seq<Hypothesis>, known: set<nat>, query: nat, serial: nat)
    requires InQuery(hs, known, query, serial) && forall h :: h in kept ==> h in hs
    ensures AllGrounded(kept, known, serial)
  {
    forall i | 0 <= i < |kept|
      ensures Grounded(kept[i], known, serial)
    {
      assert kept[i] in hs;
    }
  }

  // ---- the index ---------------------------------------------------------------------

  class Index {
    var backend: Backend
    var limit: nat
    var serial: nat
    var querySerial: nat
    var store: Store
    var db: Database
    var toEntry: map<nat, nat>
    var toKeyframe: map<nat, nat>

    predicate Bounded()
      reads this`backend
    {
      backend == Compact || backend == Flat
    }

    ghost predicate Valid()
      reads this, db
    {
      && 1 <= limit && Sound(store, backend, serial, querySerial) && (Bounded() ==> |store.cache| <= limit)
      && db.Valid() && (backend == Inverted ==> Filed(store.bows, toEntry, toKeyframe, db.entries))
    }

    constructor ()
      ensures Valid() && backend == Off && fresh(db)
    {
      hide Sound, Database.Valid;
      NothingSound(Off);
      backend, limit, serial, querySerial, store := Off, 256, 0, 0, NOTHING;
      toEntry, toKeyframe := map[], map[];
      db := new Database();
    }

    /** Switch the backend; whatever was indexed is forgotten. */
    method Enable(chosen: Backend, maxKeyframes: nat)
      requires chosen != Off
      modifies this
      ensures Valid() && backend == chosen && store.cache == map[] && store.hypotheses == [] && fresh(db)
      ensures limit == if maxKeyframes > 1 then maxKeyframes else 1
    {
      hide Sound, Database.Valid, Filed;
      NothingSound(chosen);
      FiledNone();
      backend, limit := chosen, if maxKeyframes > 1 then maxKeyframes else 1;
      serial, querySerial, store := 0, 0, NOTHING;
      toEntry, toKeyframe := map[], map[];
      db := new Database();
    }

    /** Evict one entry of an overfull bounded index. */
    method Trim(random: nat)
      requires 1 <= limit && |store.cache| <= limit + 1 && Sound(store, backend, serial, querySerial)
      modifies this`store
      ensures |store.cache| <= limit && Sound(store, backend, serial, querySerial)
      ensures TrimmedTo(old(store.cache), store.cache) && Trimmed(old(store), store, limit, serial, random)
    {
      hide Oldest, SerialsDistinct, AllGrounded, KeySets, KeepUnnamed, IsVictim;
      if |store.cache| <= limit {
        return;
      }
      var removed := Victim(store.cache, limit, serial, random);
      EvictedSound(store, backend, serial, querySerial, {removed});
      OneFewer(store.cache, removed);
      store := Evicted(store, {removed});
    }

    /** Index a keyframe with the next serial; a keyframe already indexed changes nothing. */
    method AddKeyFrame(id: nat, submap: nat, T_ws: SE3, position: Vec3, hasDescriptors: bool,
                       signature: nat, bow: seq<Entry>)
      requires Valid() && WordsIncrease(bow)
      modifies this, db
      ensures Valid() && db == old(db) && backend == old(backend) && limit == old(limit)
      ensures backend == Off || !hasDescriptors || id in old(store.cache) ==> store == old(store)
      ensures backend != Off && hasDescriptors && id !in old(store.cache) ==>
        var added := Added(old(store), backend, id, Cached(submap, T_ws, position, old(serial) + 1), signature, bow);
        && TrimmedTo(added.cache, store.cache) && serial == old(serial) + 1
        && if backend == Inverted then store == added else Trimmed(added, store, limit, serial, Mixed(serial))
    {
      hide Sound, Filed, WordsIncrease, Database.Valid, TrimmedTo, Added, BagOf, Trimmed, Mixed, Mix;
      if backend == Off || !hasDescriptors || id in store.cache {
        return;
      }
      var c := Cached(submap, T_ws, position, serial + 1);
      AddedSound(store, backend, serial, querySerial, id, c, signature, bow);
      AddedParts(store, backend, id, c, signature, bow);
      ghost var bows := store.bows;
      UnknownBag(store, backend, serial, querySerial, id);
      serial := serial + 1;
      store := Added(store, backend, id, c, signature, bow);
      if Bounded() {
        Trim(Mixed(serial));
      } else {
        NotTrimmed(store.cache);
        FileBag(id, bow, bows);
      }
    }

    /** File the bag of a keyframe under the next entry id. */
    method FileBag(id: nat, bow: seq<Entry>, ghost bows: map<nat, seq<Entry>>)
      requires db.Valid() && Filed(bows, toEntry, toKeyframe, db.entries) && id !in bows && WordsIncrease(bow)
      modifies this`toEntry, this`toKeyframe, db
      ensures db.Valid() && Filed(bows[id := bow], toEntry, toKeyframe, db.entries)
    {
      hide Filed, WordsIncrease, Database.Valid, BagOf;
      FiledMore(bows, toEntry, toKeyframe, db.entries, id, bow);
      var entry := db.Add(bow);
      toEntry, toKeyframe := toEntry[id := entry], toKeyframe[entry := id];
    }

    /** DBoW3 cannot delete an entry: file the remaining bags again in ascending order. */
    method RebuildDatabase()
      requires forall id :: id in store.bows ==> WordsIncrease(store.bows[id])
      modifies this`db, this`toEntry, this`toKeyframe
      ensures fresh(db) && db.Valid() && Filed(store.bows, toEntry, toKeyframe, db.entries)
    {
      hide Increasing, Front, Filed, WordsIncrease, Database.Valid, BagOf;
      FiledNone();
      var bows := store.bows;
      db := new Database();
      toEntry, toKeyframe := map[], map[];
      var ids := Ascending(bows.Keys);
      FrontIsAll(ids, bows.Keys);
      PartOfNone(bows);
      for n := 0 to |ids|
        invariant fresh(db) && db.Valid()
        invariant Filed(PartOf(bows, Front(ids, n)), toEntry, toKeyframe, db.entries)
      {
        FrontGrows(ids, n);
        PartOfMore(bows, Front(ids, n), ids[n]);
        FileBag(ids[n], bows[ids[n]], PartOf(bows, Front(ids, n)));
      }
      PartOfAll(bows);
    }

    /** Forget keyframes and every hypothesis naming one of them. */
    method RemoveKeyFrames(ids: seq<nat>)
      requires Valid()
      modifies this
      ensures Valid() && backend == old(backend) && limit == old(limit)
      ensures store == old(store) || store == Evicted(old(store), set id | id in ids)
      ensures store.cache == old(store.cache) - set id | id in ids
      ensures db == old(db) || fresh(db)
      ensures backend != Inverted || store == old(store) ==> db == old(db)
    {
      hide Sound, Filed, Database.Valid, Evicted;
      var removed := set id | id in ids;
      EvictedCache(store, removed);
      if store.cache.Keys !! removed {
        return;
      }
      EvictedSound(store, backend, serial, querySerial, removed);
      NoMoreEntries(store.cache, removed);
      store := Evicted(store, removed);
      if backend == Inverted {
        SoundBags(store, backend, serial, querySerial);
        RebuildDatabase();
      }
    }

    /** Count a query, then fold the places it found into the hypotheses; old and surplus ones are dropped. */
    method ObservePlaces(query: nat, places: seq<Place>, gap: nat)
      requires Valid() && forall i :: 0 <= i < |places| ==> places[i].id in store.cache
      modifies this`store, this`querySerial
      ensures Valid() && querySerial == old(querySerial) + 1 && store == old(store).(hypotheses := store.hypotheses)
      ensures |store.hypotheses| <= MAX_HYPOTHESES
      ensures forall h :: h in store.hypotheses ==> querySerial - h.lastSeen <= LIFETIME
      ensures KeptBest(Recent(ObservedAll(old(store.hypotheses), places, query, querySerial, gap), querySerial),
                       store.hypotheses)
      ensures forall h :: h in store.hypotheses ==>
        || Opened(h, places, query, querySerial)
        || exists a :: a in old(store.hypotheses) && Continues(a, h, places, query, querySerial, gap)
    {
      hide KeySets, SerialsDistinct, Filed, Database.Valid, AllGrounded, InQuery, WordsIncrease, Ranked, RanksBefore,
           Observed, Continued, Continues, Opened;
      ghost var known := store.cache.Keys;
      QueryStarts(store.hypotheses, known, query, querySerial);
      querySerial := querySerial + 1;
      var hs := store.hypotheses;
      for n := 0 to |places|
        invariant querySerial == old(querySerial) + 1 && store == old(store)
        invariant InQuery(hs, known, query, querySerial)
        invariant hs == ObservedAll(old(store.hypotheses), places[..n], query, querySerial, gap)
      {
        assert places[..n + 1][..n] == places[..n];
        hs := ObserveOne(hs, places[n], query, querySerial, gap, known);
      }
      assert places[..|places|] == places;
      QueryContinues(store.hypotheses, places, query, querySerial, gap);
      EachContinues(store.hypotheses, hs, places, query, querySerial, gap);
      var kept := Recent(hs, querySerial);
      if |kept| > MAX_HYPOTHESES {
        var sorted := BestFirst(kept);
        PrefixIsBest(kept, sorted);
        KeptAreRecent(kept, sorted[..MAX_HYPOTHESES]);
        kept := sorted[..MAX_HYPOTHESES];
      }
      QueryEnds(hs, kept, known, query, querySerial);
      NewHypotheses(store, backend, serial, old(querySerial), kept, querySerial);
      store := store.(hypotheses := kept);
    }

    /** A query of the inverted backend, answered in keyframe ids. */
    method Query(q: seq<Entry>, pool: int) returns (hits: seq<(nat, real)>)
      requires Valid() && backend == Inverted && WordsIncrease(q)
      ensures forall i :: 0 <= i < |hits| ==>
        hits[i].0 in store.bows && hits[i].1 == L1Score(BagOf(q), BagOf(store.bows[hits[i].0]))
      ensures forall i, j :: 0 <= i < j < |hits| ==> hits[i].1 >= hits[j].1 && hits[i].0 != hits[j].0
      ensures forall id :: id in store.bows && SharesWord(BagOf(q), BagOf(store.bows[id])) ==>
        || (exists i :: 0 <= i < |hits| && hits[i].0 == id)
        || (0 < pool == |hits| && forall i :: 0 <= i < |hits| ==> hits[i].1 >= L1Score(BagOf(q), BagOf(store.bows[id])))
    {
      hide Sound, Filed, Database.Valid, L1Score, BagOf, WordsIncrease, SharesWord, Answers;
      var ret := db.QueryL1(q, pool, -1);
      AnswersAreFiled(ret, BagOf(q), db.entries, pool, store.bows, toEntry, toKeyframe);
      hits := [];
      for n := 0 to |ret|
        invariant |hits| == n
        invariant forall i :: 0 <= i < n ==>
          ret[i].entry in toKeyframe && hits[i] == (toKeyframe[ret[i].entry], ret[i].score)
      {
        if ret[n].entry in toKeyframe {
          hits := hits + [(toKeyframe[ret[n].entry], ret[n].score)];
        }
      }
      HitsAreRight(ret, hits, BagOf(q), db.entries, pool, store.bows, toEntry, toKeyframe);
    }
  }

  lemma NewHypotheses(s: Store, backend: Backend, serial: nat, before: nat, hs: seq<Hypothesis>, now: nat)
    requires Sound(s, backend, serial, before) && AllGrounded(hs, s.cache.Keys, now)
    ensures Sound(s.(hypotheses := hs), backend, serial, now)
  {
    hide SerialsDistinct, AllGrounded, WordsIncrease;
  }

  lemma AddedParts(s: Store, backend: Backend, id: nat, c: Cached, signature: nat, bow: seq<Entry>)
    ensures var t := Added(s, backend, id, c, signature, bow);
            t.cache == s.cache[id := c] && (backend == Inverted ==> t.bows == s.bows[id := bow])
  {
  }

  lemma UnknownBag(s: Store, backend: Backend, serial: nat, querySerial: nat, id: nat)
    requires Sound(s, backend, serial, querySerial) && id !in s.cache
    ensures id !in s.bows
  {
  }

  lemma NotTrimmed(cache: map<nat, Cached>)
    ensures TrimmedTo(cache, cache)
  {
  }

  lemma SoundBags(s: Store, backend: Backend, serial: nat, querySerial: nat)
    requires Sound(s, backend, serial, querySerial)
    ensures forall id :: id in s.bows ==> WordsIncrease(s.bows[id])
  {
  }

  lemma EvictedCache(s: Store, removed: set<nat>)
    ensures Evicted(s, removed).cache == s.cache - removed
    ensures s.cache.Keys !! removed ==> s.cache - removed == s.cache
  {
  }

  ghost function PartOf(bows: map<nat, seq<Entry>>, ids: set<nat>): map<nat, seq<Entry>> {
    map id | id in bows && id in ids :: bows[id]
  }

  lemma PartOfNone(bows: map<nat, seq<Entry>>)
    ensures PartOf(bows, {}) == map[]
  {
  }

  lemma PartOfMore(bows: map<nat, seq<Entry>>, ids: set<nat>, id: nat)
    requires id in bows && id !in ids
    ensures id !in PartOf(bows, ids) && PartOf(bows, ids + {id}) == PartOf(bows, ids)[id := bows[id]]
  {
  }

  lemma PartOfAll(bows: map<nat, seq<Entry>>)
    ensures PartOf(bows, bows.Keys) == bows
  {
  }

  lemma AnswersAreFiled(ret: seq<Hit>, q: Table, entries: seq<Table>, pool: int,
                        bows: map<nat, seq<Entry>>, toEntry: map<nat, nat>, toKeyframe: map<nat, nat>)
    requires Answers(ret, q, entries, pool, -1) && Filed(bows, toEntry, toKeyframe, entries)
    ensures forall i :: 0 <= i < |ret| ==> ret[i].entry in toKeyframe
  {
    hide SharesWord, L1Score, WordsIncrease, BagOf;
  }

  lemma HitsAreRight(ret: seq<Hit>, hits: seq<(nat, real)>, q: Table, entries: seq<Table>, pool: int,
                     bows: map<nat, seq<Entry>>, toEntry: map<nat, nat>, toKeyframe: map<nat, nat>)
    requires Answers(ret, q, entries, pool, -1) && Filed(bows, toEntry, toKeyframe, entries) && |hits| == |ret|
    requires forall i :: 0 <= i < |ret| ==>
      ret[i].entry in toKeyframe && hits[i] == (toKeyframe[ret[i].entry], ret[i].score)
    ensures forall i :: 0 <= i < |hits| ==> hits[i].0 in bows && hits[i].1 == L1Score(q, BagOf(bows[hits[i].0]))
    ensures forall i, j :: 0 <= i < j < |hits| ==> hits[i].1 >= hits[j].1 && hits[i].0 != hits[j].0
    ensures forall id :: id in bows && SharesWord(q, BagOf(bows[id])) ==>
      || (exists i :: 0 <= i < |hits| && hits[i].0 == id)
      || (0 < pool == |hits| && forall i :: 0 <= i < |hits| ==> hits[i].1 >= L1Score(q, BagOf(bows[id])))
  {
    hide SharesWord, L1Score, WordsIncrease, BagOf;
    HitIds(ret, hits, q, entries, pool, bows, toEntry, toKeyframe);
    forall id | id in bows && SharesWord(q, BagOf(bows[id]))
      ensures || (exists i :: 0 <= i < |hits| && hits[i].0 == id)
              || (0 < pool == |hits| && forall i :: 0 <= i < |hits| ==> hits[i].1 >= L1Score(q, BagOf(bows[id])))
    {
      var e := toEntry[id];
      assert entries[e] == BagOf(bows[id]) && Eligible(e, -1);
      if i :| 0 <= i < |ret| && ret[i].entry == e {
        assert hits[i].0 == id;
      }
    }
  }

  lemma HitIds(ret: seq<Hit>, hits: seq<(nat, real)>, q: Table, entries: seq<Table>, pool: int,
               bows: map<nat, seq<Entry>>, toEntry: map<nat, nat>, toKeyframe: map<nat, nat>)
    requires Answers(ret, q, entries, pool, -1) && Filed(bows, toEntry, toKeyframe, entries) && |hits| == |ret|
    requires forall i :: 0 <= i < |ret| ==>
      ret[i].entry in toKeyframe && hits[i] == (toKeyframe[ret[i].entry], ret[i].score)
    ensures forall i :: 0 <= i < |hits| ==> hits[i].0 in bows && hits[i].1 == L1Score(q, BagOf(bows[hits[i].0]))
    ensures forall i, j :: 0 <= i < j < |hits| ==> hits[i].1 >= hits[j].1 && hits[i].0 != hits[j].0
  {
    hide SharesWord, L1Score, WordsIncrease, BagOf;
    forall i | 0 <= i < |hits|
      ensures hits[i].0 in toEntry && toEntry[hits[i].0] == ret[i].entry
    {
    }
  }
}
