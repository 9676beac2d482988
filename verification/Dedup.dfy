/**
 The deduplication cache of legacy requests: a fixed table filled round robin and
 searched from the front. With requests handled one at a time it is exactly a window
 over the most recent misses; the reference below keeps the list of misses itself.
 */
module Dedup {
  import opened FieldCodec

  const ID_SIZE: nat := 64

  datatype Entry = Entry(id: string, result: bool, used: bool)
  datatype Table = Table(slots: seq<Entry>, pos: nat)

  predicate Shaped(t: Table) {
    t.pos < |t.slots|
  }

  function Empty(n: nat): Table {
    Table(seq(n, _ => Entry("", false, false)), 0)
  }

  /** dedup_find: the result in the first used slot with this id. */
  function Cached(slots: seq<Entry>, id: string): (r: Option<bool>)
    ensures r.Some? ==> Entry(id, r.value, true) in slots
    ensures r.None? ==> forall e :: e in slots ==> !(e.used && e.id == id)
  {
    if slots == [] then None
    else if slots[0].used && slots[0].id == id then
      assert slots[0] == Entry(id, slots[0].result, true);
      Some(slots[0].result)
    else
      assert slots == [slots[0]] + slots[1..];
      Cached(slots[1..], id)
  }

  /** dedup_put: overwrites the slot at the cursor; an empty id is not stored. */
  function Put(t: Table, id: string, result: bool): (r: Table)
    requires Shaped(t)
    ensures Shaped(r) && |r.slots| == |t.slots|
    ensures id != "" ==> r.pos == if t.pos + 1 == |t.slots| then 0 else t.pos + 1
  {
    if id == "" then t
    else Table(t.slots[t.pos := Entry(Cut(id, ID_SIZE), result, true)], (t.pos + 1) % |t.slots|)
  }

  datatype Query = Query(id: string, verdict: bool)

  /** handle_legacy without interference: the reply and the table after it. */
  function Handle(t: Table, q: Query): (r: (bool, Table))
    requires Shaped(t)
    ensures Shaped(r.1) && |r.1.slots| == |t.slots|
  {
    if q.id == "" then (q.verdict, t)
    else
      match Cached(t.slots, q.id)
      case Some(cached) => (cached, t)
      case None => (q.verdict, Put(t, q.id, q.verdict))
  }

  function HandleAll(t: Table, qs: seq<Query>): (r: (seq<bool>, Table))
    requires Shaped(t)
    ensures Shaped(r.1) && |r.1.slots| == |t.slots|
  {
    if qs == [] then ([], t)
    else
      var (replies, t1) := HandleAll(t, qs[..|qs| - 1]);
      var (reply, t2) := Handle(t1, qs[|qs| - 1]);
      (replies + [reply], t2)
  }

  // ----- Reference: the list of all misses -----

  function Recent(misses: seq<Query>, n: nat): seq<Query> {
    if |misses| <= n then misses else misses[|misses| - n..]
  }

  /** The answer given with this id within a list of misses. */
  function Recall(ms: seq<Query>, id: string): (r: Option<bool>)
    ensures r.Some? ==> Query(id, r.value) in ms
    ensures r.None? ==> forall q :: q in ms ==> q.id != id
  {
    if ms == [] then None
    else if ms[0].id == id then
      assert ms[0] == Query(id, ms[0].verdict);
      Some(ms[0].verdict)
    else
      assert ms == [ms[0]] + ms[1..];
      Recall(ms[1..], id)
  }

  function RefHandle(misses: seq<Query>, n: nat, q: Query): (bool, seq<Query>) {
    if q.id == "" then (q.verdict, misses)
    else
      match Recall(Recent(misses, n), q.id)
      case Some(cached) => (cached, misses)
      case None => (q.verdict, misses + [q])
  }

  function RefHandleAll(n: nat, qs: seq<Query>): (seq<bool>, seq<Query>) {
    if qs == [] then ([], [])
    else
      var (replies, m1) := RefHandleAll(n, qs[..|qs| - 1]);
      var (reply, m2) := RefHandle(m1, n, qs[|qs| - 1]);
      (replies + [reply], m2)
  }

  // ----- The table is the window -----

  function Entries(ms: seq<Query>): (es: seq<Entry>)
    ensures |es| == |ms| && forall i :: 0 <= i < |ms| ==> es[i] == Entry(ms[i].id, ms[i].verdict, true)
  {
    seq(|ms|, i requires 0 <= i < |ms| => Entry(ms[i].id, ms[i].verdict, true))
  }

  predicate DistinctIds(ms: seq<Query>) {
    forall i, j :: 0 <= i < j < |ms| ==> ms[i].id != ms[j].id
  }

  /** Oldest first, the used slots hold exactly the recent misses, with pairwise distinct ids. */
  ghost predicate IsWindow(t: Table, misses: seq<Query>) {
    var n := |t.slots|;
    && Shaped(t)
    && DistinctIds(Recent(misses, n))
    && (|misses| < n ==>
          && t.pos == |misses|
          && t.slots[..t.pos] == Entries(misses)
          && forall i :: t.pos <= i < n ==> !t.slots[i].used)
    && (|misses| >= n ==> t.slots[t.pos..] + t.slots[..t.pos] == Entries(Recent(misses, n)))
  }

  /** A used slot is a recent miss and the other way round. */
  lemma SlotIsMiss(t: Table, misses: seq<Query>, id: string, result: bool)
    requires IsWindow(t, misses)
    ensures Entry(id, result, true) in t.slots <==> Query(id, result) in Recent(misses, |t.slots|)
  {
    var w, e := Recent(misses, |t.slots|), Entry(id, result, true);
    assert t.slots == t.slots[..t.pos] + t.slots[t.pos..];
    if Query(id, result) in w {
      var j :| 0 <= j < |w| && w[j] == Query(id, result);
      assert Entries(w)[j] == e;
    }
    if e in Entries(w) {
      var j :| 0 <= j < |w| && Entries(w)[j] == e;
      assert w[j] == Query(id, result);
    }
  }

  lemma CachedIsRecall(t: Table, misses: seq<Query>, id: string)
    requires IsWindow(t, misses)
    ensures Cached(t.slots, id) == Recall(Recent(misses, |t.slots|), id)
  {
    var w := Recent(misses, |t.slots|);
    var found, known := Cached(t.slots, id), Recall(w, id);
    if known.Some? {
      SlotIsMiss(t, misses, id, known.value);
    }
    if found.Some? {
      SlotIsMiss(t, misses, id, found.value);
    }
  }

  lemma RecentSnoc(misses: seq<Query>, n: nat, q: Query)
    requires n > 0
    ensures var w := Recent(misses, n);
            Recent(misses + [q], n) == (if |misses| < n then w else w[1..]) + [q]
  {
  }

  /** Overwriting at the cursor and advancing it drops the oldest entry and appends the new one. */
  lemma Rotated(slots: seq<Entry>, pos: nat, e: Entry)
    requires pos < |slots|
    ensures var after, next := slots[pos := e], (pos + 1) % |slots|;
            after[next..] + after[..next] == (slots[pos..] + slots[..pos])[1..] + [e]
  {
    var after, next := slots[pos := e], (pos + 1) % |slots|;
    if pos + 1 == |slots| {
      assert next == 0;
    } else {
      assert next == pos + 1;
    }
  }

  lemma DistinctSnoc(ms: seq<Query>, q: Query)
    requires DistinctIds(ms) && forall m :: m in ms ==> m.id != q.id
    ensures DistinctIds(ms + [q])
    ensures ms != [] ==> DistinctIds(ms[1..] + [q])
  {
    assert forall i :: 0 <= i < |ms| ==> ms[i] in ms;
  }

  lemma NewIdStaysDistinct(t: Table, misses: seq<Query>, q: Query)
    requires IsWindow(t, misses) && Cached(t.slots, q.id).None?
    ensures DistinctIds(Recent(misses + [q], |t.slots|))
  {
    CachedIsRecall(t, misses, q.id);
    DistinctSnoc(Recent(misses, |t.slots|), q);
    RecentSnoc(misses, |t.slots|, q);
  }

  lemma EntriesSnoc(ms: seq<Query>, q: Query)
    ensures Entries(ms + [q]) == Entries(ms) + [Entry(q.id, q.verdict, true)]
  {
  }

  lemma PutFills(t: Table, misses: seq<Query>, q: Query)
    requires IsWindow(t, misses) && 0 < |q.id| < ID_SIZE && |misses| < |t.slots|
    requires DistinctIds(Recent(misses + [q], |t.slots|))
    ensures IsWindow(Put(t, q.id, q.verdict), misses + [q])
  {
    var n, e := |t.slots|, Entry(q.id, q.verdict, true);
    var after := t.slots[t.pos := e];
    EntriesSnoc(misses, q);
    assert after[..t.pos + 1] == t.slots[..t.pos] + [e];
    assert t.pos + 1 == n ==> after[0..] + after[..0] == after[..t.pos + 1];
  }

  lemma PutRotates(t: Table, misses: seq<Query>, q: Query)
    requires IsWindow(t, misses) && 0 < |q.id| < ID_SIZE && |misses| >= |t.slots|
    requires DistinctIds(Recent(misses + [q], |t.slots|))
    ensures IsWindow(Put(t, q.id, q.verdict), misses + [q])
  {
    var w := Recent(misses, |t.slots|);
    Rotated(t.slots, t.pos, Entry(q.id, q.verdict, true));
    RecentSnoc(misses, |t.slots|, q);
    EntriesSnoc(w[1..], q);
    assert Entries(w[1..]) == Entries(w)[1..];
  }

  /**
   For every sequence of legacy requests: the replies are those of the reference, and
   the table is the window of the last |slots| misses.
   */
  lemma {:induction false} TableIsWindow(n: nat, qs: seq<Query>)
    requires n > 0 && forall i :: 0 <= i < |qs| ==> |qs[i].id| < ID_SIZE
    ensures var (replies, t) := HandleAll(Empty(n), qs);
            var (expected, misses) := RefHandleAll(n, qs);
            replies == expected && |t.slots| == n && IsWindow(t, misses)
  {
    if qs != [] {
      var q := qs[|qs| - 1];
      TableIsWindow(n, qs[..|qs| - 1]);
      var t, misses := HandleAll(Empty(n), qs[..|qs| - 1]).1, RefHandleAll(n, qs[..|qs| - 1]).1;
      CachedIsRecall(t, misses, q.id);
      if q.id != "" && Cached(t.slots, q.id).None? {
        NewIdStaysDistinct(t, misses, q);
        if |misses| < n {
          PutFills(t, misses, q);
        } else {
          PutRotates(t, misses, q);
        }
      }
    }
  }

  /**
   After any sequence of requests, an id is answered from the cache exactly while fewer
   than n misses follow its own, and then with the answer of that miss.
   */
  lemma RepeatedId(n: nat, qs: seq<Query>, q: Query, k: nat)
    requires n > 0 && forall i :: 0 <= i < |qs| ==> |qs[i].id| < ID_SIZE
    requires 0 < |q.id| < ID_SIZE
    requires var misses := RefHandleAll(n, qs).1;
             k < |misses| && misses[k].id == q.id && forall j :: k < j < |misses| ==> misses[j].id != q.id
    ensures var t, misses := HandleAll(Empty(n), qs).1, RefHandleAll(n, qs).1;
            var later := |misses| - 1 - k;
            && (later < n ==> Handle(t, q) == (misses[k].verdict, t))
            && (later >= n ==> Handle(t, q) == (q.verdict, Put(t, q.id, q.verdict)))
  {
    TableIsWindow(n, qs);
    var t, misses := HandleAll(Empty(n), qs).1, RefHandleAll(n, qs).1;
    CachedIsRecall(t, misses, q.id);
    RecallLatest(misses, n, q.id, k);
  }

  /** Whatever the table holds, the next request with the same id repeats the answer. */
  lemma Repeats(t: Table, q: Query, again: Query)
    requires Shaped(t) && 0 < |q.id| < ID_SIZE && again.id == q.id
    ensures Handle(Handle(t, q).1, again) == Handle(t, q)
  {
    if Cached(t.slots, q.id).None? {
      var slots := Handle(t, q).1.slots;
      assert slots[t.pos] == Entry(q.id, q.verdict, true);
      assert slots[t.pos] in slots;
    }
  }

  lemma RecallLatest(misses: seq<Query>, n: nat, id: string, k: nat)
    requires DistinctIds(Recent(misses, n)) && k < |misses| && misses[k].id == id
    requires forall j :: k < j < |misses| ==> misses[j].id != id
    ensures Recall(Recent(misses, n), id) == if |misses| - 1 - k < n then Some(misses[k].verdict) else None
  {
    var w := Recent(misses, n);
    var base := |misses| - |w|;
    assert forall j :: 0 <= j < |w| ==> w[j] == misses[base + j];
    assert k >= base ==> w[k - base] == misses[k];
  }

  // ----- The table as the source holds it -----

  class Cache {
    const tab: array<Entry>
    var pos: nat

    ghost predicate Valid()
      reads this
    {
      pos < tab.Length
    }

    ghost function View(): Table
      reads this, tab
    {
      Table(tab[..], pos)
    }

    constructor (n: nat)
      requires n > 0
      ensures Valid() && View() == Empty(n) && fresh(tab)
    {
      tab := new Entry[n](_ => Entry("", false, false));
      pos := 0;
      new;
      assert tab[..] == Empty(n).slots;
    }

    method Lookup(id: string) returns (hit: bool, result: bool)
      requires Valid()
      ensures Cached(View().slots, id) == if hit then Some(result) else None
    {
      var i := 0;
      while i < tab.Length
        invariant i <= tab.Length
        invariant Cached(tab[..], id) == Cached(tab[i..], id)
      {
        assert tab[i..] == [tab[i]] + tab[i + 1..];
        if tab[i].used && tab[i].id == id {
          return true, tab[i].result;
        }
        i := i + 1;
      }
      assert tab[i..] == [];
      return false, false;
    }

    method Store(id: string, result: bool)
      requires Valid()
      modifies this, tab
      ensures Valid() && View() == Put(old(View()), id, result)
    {
      if id == "" {
        return;
      }
      tab[pos] := Entry(Cut(id, ID_SIZE), result, true);
      assert tab[..] == old(tab[..])[old(pos) := tab[pos]];
      pos := (pos + 1) % tab.Length;
    }

    /** One legacy request from lookup to reply, with no other worker in between. */
    method Serve(q: Query) returns (reply: bool)
      requires Valid()
      modifies this, tab
      ensures Valid() && (reply, View()) == Handle(old(View()), q)
    {
      reply := q.verdict;
      if q.id != "" {
        var hit, cached := Lookup(q.id);
        if hit {
          reply := cached;
        } else {
          Store(q.id, q.verdict);
        }
      }
    }
  }
}
