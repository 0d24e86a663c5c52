/** The landowner's dashboard (src/pages/LandownerDashboard.tsx): the
    pending-request count of every owned space, the summary statistics, the
    show/hide switch and the "new requests" notice. */
module LandownerDashboard {
  import opened Domain
  import opened Seqs

  /** An owned space as the dashboard reads it. */
  datatype OwnedSpace = OwnedSpace(id: string, isActive: bool)

  /** One property of the `counts` object. */
  datatype Entry = Entry(key: string, value: nat)

  /** A JavaScript object from space ids to numbers, as its properties in
      insertion order. */
  type Counts = seq<Entry>

  /** `Object.keys(c)`. */
  function Keys(c: Counts): (ks: seq<string>)
    ensures |ks| == |c|
  {
    if c == [] then [] else [c[0].key] + Keys(c[1..])
  }

  predicate UniqueKeys(c: Counts)
  {
    Distinct(Keys(c))
  }

  /** `c[key]`, `None` standing for `undefined`. */
  function Lookup(c: Counts, key: string): (v: Option<nat>)
    ensures v.None? <==> key !in Keys(c)
  {
    if c == [] then None
    else if c[0].key == key then Some(c[0].value)
    else Lookup(c[1..], key)
  }

  /** `c[key] = value`: an existing property is overwritten where it
      stands, a new one is added at the end. */
  function Put(c: Counts, key: string, value: nat): (r: Counts)
    ensures key !in Keys(c) ==> r == c + [Entry(key, value)]
  {
    if c == [] then [Entry(key, value)]
    else if c[0].key == key then [Entry(key, value)] + c[1..]
    else [c[0]] + Put(c[1..], key, value)
  }

  /** `c[key] = value` adds `key` to the keys when it is new and otherwise
      leaves the keys, and their order, as they were. */
  lemma {:induction false} PutKeys(c: Counts, key: string, value: nat)
    ensures Keys(Put(c, key, value)) == if key in Keys(c) then Keys(c) else Keys(c) + [key]
  {
    if c != [] {
      if c[0].key == key {
        assert Keys(Put(c, key, value)) == [key] + Keys(c[1..]);
      } else {
        PutKeys(c[1..], key, value);
        assert Keys(Put(c, key, value)) == [c[0].key] + Keys(Put(c[1..], key, value));
      }
    }
  }

  /** After `c[key] = value` the key reads `value` and every other key
      reads as before. */
  lemma {:induction false} PutThenLookup(c: Counts, key: string, value: nat, other: string)
    ensures Lookup(Put(c, key, value), other) == if other == key then Some(value) else Lookup(c, other)
  {
    if c != [] && c[0].key != key {
      PutThenLookup(c[1..], key, value, other);
    }
  }

  /** Setting a property never makes a key appear twice. */
  lemma PutKeepsUniqueKeys(c: Counts, key: string, value: nat)
    requires UniqueKeys(c)
    ensures UniqueKeys(Put(c, key, value))
  {
    PutKeys(c, key, value);
  }

  /** `Object.values(c)`. */
  function Values(c: Counts): (vs: seq<nat>)
    ensures |vs| == |c|
  {
    if c == [] then [] else [c[0].value] + Values(c[1..])
  }

  /** A property added at the end adds its value at the end. */
  lemma {:induction false} ValuesSnoc(c: Counts, e: Entry)
    ensures Values(c + [e]) == Values(c) + [e.value]
  {
    if c != [] {
      assert (c + [e])[1..] == c[1..] + [e];
      ValuesSnoc(c[1..], e);
    } else {
      assert c + [e] == [e];
    }
  }

  /** The number of pending requests on a space (the exact-count query). */
  function PendingCount(requests: seq<RequestRow>, spaceId: string): nat
  {
    |Filter(requests, (r: RequestRow) => r.spaceId == spaceId && r.status == Pending)|
  }

  /** The pending counts of a list of spaces, in order. */
  function PendingCounts(requests: seq<RequestRow>, ids: seq<string>): (ns: seq<nat>)
    ensures |ns| == |ids|
  {
    if ids == [] then [] else [PendingCount(requests, ids[0])] + PendingCounts(requests, ids[1..])
  }

  lemma {:induction false} PendingCountsSnoc(requests: seq<RequestRow>, ids: seq<string>, id: string)
    ensures PendingCounts(requests, ids + [id]) == PendingCounts(requests, ids) + [PendingCount(requests, id)]
  {
    if ids != [] {
      assert (ids + [id])[1..] == ids[1..] + [id];
      PendingCountsSnoc(requests, ids[1..], id);
    } else {
      assert ids + [id] == [id];
    }
  }

  function IdsOf(spaces: seq<OwnedSpace>): (ids: seq<string>)
    ensures |ids| == |spaces|
    ensures forall k :: 0 <= k < |spaces| ==> ids[k] == spaces[k].id
  {
    seq(|spaces|, k requires 0 <= k < |spaces| => spaces[k].id)
  }

  /** The counts object after the loop of `fetchSpaces` has stored the
      count of each id in turn. */
  function CountsFor(requests: seq<RequestRow>, ids: seq<string>): Counts
  {
    if ids == [] then []
    else
      var last := ids[|ids| - 1];
      Put(CountsFor(requests, ids[..|ids| - 1]), last, PendingCount(requests, last))
  }

  /** No id is stored twice. */
  lemma {:induction false} CountsForUnique(requests: seq<RequestRow>, ids: seq<string>)
    ensures UniqueKeys(CountsFor(requests, ids))
  {
    if ids != [] {
      var last := ids[|ids| - 1];
      CountsForUnique(requests, ids[..|ids| - 1]);
      PutKeepsUniqueKeys(CountsFor(requests, ids[..|ids| - 1]), last, PendingCount(requests, last));
    }
  }

  /** The keys are exactly the ids. */
  lemma {:induction false} CountsForKeys(requests: seq<RequestRow>, ids: seq<string>)
    ensures forall key :: key in Keys(CountsFor(requests, ids)) <==> key in ids
  {
    if ids != [] {
      var init := ids[..|ids| - 1];
      var last := ids[|ids| - 1];
      CountsForKeys(requests, init);
      PutKeys(CountsFor(requests, init), last, PendingCount(requests, last));
      assert ids == init + [last];
    }
  }

  /** Every id reads its own number of pending requests. */
  lemma {:induction false} CountsForLookup(requests: seq<RequestRow>, ids: seq<string>, id: string)
    requires id in ids
    ensures Lookup(CountsFor(requests, ids), id) == Some(PendingCount(requests, id))
  {
    var init := ids[..|ids| - 1];
    var last := ids[|ids| - 1];
    PutThenLookup(CountsFor(requests, init), last, PendingCount(requests, last), id);
    if id != last {
      assert ids == init + [last];
      CountsForLookup(requests, init, id);
    }
  }

  /** With distinct ids, the values are the counts in the order of the ids. */
  lemma {:induction false} CountsForValues(requests: seq<RequestRow>, ids: seq<string>)
    requires Distinct(ids)
    ensures Values(CountsFor(requests, ids)) == PendingCounts(requests, ids)
  {
    if ids != [] {
      var init := ids[..|ids| - 1];
      var last := ids[|ids| - 1];
      var n := PendingCount(requests, last);
      assert ids == init + [last];
      assert Distinct(init);
      assert last !in init;
      CountsForValues(requests, init);
      CountsForKeys(requests, init);
      var c := CountsFor(requests, init);
      ValuesSnoc(c, Entry(last, n));
      PendingCountsSnoc(requests, init, last);
    }
  }

  /** The loop of `fetchSpaces`: one exact count per space, stored under
      its id. Every space reads its own number of pending requests, the
      keys are exactly the space ids, each once, and when the ids are
      distinct the values are the counts in listing order. */
  method CountPending(spaces: seq<OwnedSpace>, requests: seq<RequestRow>) returns (counts: Counts)
    ensures counts == CountsFor(requests, IdsOf(spaces))
    ensures UniqueKeys(counts)
    ensures forall k :: 0 <= k < |spaces| ==> Lookup(counts, spaces[k].id) == Some(PendingCount(requests, spaces[k].id))
    ensures forall key :: key in Keys(counts) <==> key in IdsOf(spaces)
    ensures Distinct(IdsOf(spaces)) ==> Values(counts) == PendingCounts(requests, IdsOf(spaces))
  {
    var ids := IdsOf(spaces);
    counts := [];
    var i := 0;
    while i < |spaces|
      invariant 0 <= i <= |spaces|
      invariant counts == CountsFor(requests, ids[..i])
    {
      assert ids[..i + 1][..i] == ids[..i];
      counts := Put(counts, spaces[i].id, PendingCount(requests, spaces[i].id));
      i := i + 1;
    }
    assert ids[..i] == ids;
    CountsForUnique(requests, ids);
    CountsForKeys(requests, ids);
    forall k | 0 <= k < |spaces|
      ensures Lookup(counts, spaces[k].id) == Some(PendingCount(requests, spaces[k].id))
    {
      CountsForLookup(requests, ids, ids[k]);
    }
    if Distinct(ids) {
      CountsForValues(requests, ids);
    }
  }

  /** The pending requests on any of the given spaces. */
  function PendingOn(requests: seq<RequestRow>, ids: seq<string>): nat
  {
    |Filter(requests, (r: RequestRow) => r.spaceId in ids && r.status == Pending)|
  }

  /** With distinct ids, the counts add up to the number of pending
      requests on the owner's spaces: no request is counted twice. */
  lemma {:induction false} CountsAddUp(requests: seq<RequestRow>, ids: seq<string>)
    requires Distinct(ids)
    ensures Sum(PendingCounts(requests, ids)) == PendingOn(requests, ids)
  {
    if ids == [] {
      FilterKeepsNone(requests, (r: RequestRow) => r.spaceId in ids && r.status == Pending);
    } else {
      var rest := ids[1..];
      assert Distinct(rest);
      CountsAddUp(requests, rest);
      assert ids[0] !in rest;
      var p := (r: RequestRow) => r.spaceId == ids[0] && r.status == Pending;
      var q := (r: RequestRow) => r.spaceId in rest && r.status == Pending;
      var both := (r: RequestRow) => r.spaceId in ids && r.status == Pending;
      forall k | 0 <= k < |requests| ensures both(requests[k]) == (p(requests[k]) || q(requests[k])) {
        assert ids == [ids[0]] + rest;
      }
      FilterCountDisjoint(requests, p, q, both);
    }
  }

  /** `totalRequests`: the sum of all the counts. */
  function TotalRequests(c: Counts): nat
  {
    Sum(Values(c))
  }

  /** The counts of a freshly loaded dashboard add up to every pending
      request on the owner's spaces (space ids being unique). */
  lemma TotalRequestsAfterLoad(spaces: seq<OwnedSpace>, requests: seq<RequestRow>, counts: Counts)
    requires Distinct(IdsOf(spaces))
    requires Values(counts) == PendingCounts(requests, IdsOf(spaces))
    ensures TotalRequests(counts) == PendingOn(requests, IdsOf(spaces))
  {
    CountsAddUp(requests, IdsOf(spaces));
  }

  /** `activeSpaces`: how many spaces are shown to gardeners. */
  function ActiveSpaces(spaces: seq<OwnedSpace>): (n: nat)
    ensures n <= |spaces|
  {
    |Filter(spaces, (s: OwnedSpace) => s.isActive)|
  }

  /** All spaces are active exactly when the active count reaches the total. */
  lemma {:induction false} ActiveSpacesFull(spaces: seq<OwnedSpace>)
    ensures ActiveSpaces(spaces) == |spaces| <==> forall k :: 0 <= k < |spaces| ==> spaces[k].isActive
  {
    if spaces != [] {
      ActiveSpacesFull(spaces[1..]);
      assert forall k :: 1 <= k < |spaces| ==> spaces[k] == spaces[1..][k - 1];
    }
  }

  /** `handleToggleActive(id, current)`: every space with that id gets
      `is_active = !current`, the others are left alone. */
  function WithActiveFlipped(spaces: seq<OwnedSpace>, id: string, current: bool): (r: seq<OwnedSpace>)
    ensures |r| == |spaces|
    ensures forall k :: 0 <= k < |r| ==> r[k].id == spaces[k].id
    ensures forall k :: 0 <= k < |r| && spaces[k].id == id ==> r[k].isActive == !current
    ensures forall k :: 0 <= k < |r| && spaces[k].id != id ==> r[k] == spaces[k]
  {
    seq(|spaces|, k requires 0 <= k < |spaces| => if spaces[k].id == id then spaces[k].(isActive := !current) else spaces[k])
  }

  /** Switching a space with its current flag and then again with the new
      flag gives back the same list. */
  lemma ToggleTwiceRestores(spaces: seq<OwnedSpace>, id: string, current: bool)
    requires forall k :: 0 <= k < |spaces| && spaces[k].id == id ==> spaces[k].isActive == current
    ensures WithActiveFlipped(WithActiveFlipped(spaces, id, current), id, !current) == spaces
  {
  }

  /** When no other space shares its id, hiding an active space lowers the
      active count by one and showing a hidden one raises it by one. */
  lemma {:induction false} ToggleMovesActiveCount(spaces: seq<OwnedSpace>, i: nat)
    requires i < |spaces|
    requires forall k :: 0 <= k < |spaces| && k != i ==> spaces[k].id != spaces[i].id
    ensures var after := ActiveSpaces(WithActiveFlipped(spaces, spaces[i].id, spaces[i].isActive));
      if spaces[i].isActive then after + 1 == ActiveSpaces(spaces) else after == ActiveSpaces(spaces) + 1
  {
    var id := spaces[i].id;
    var cur := spaces[i].isActive;
    var r := WithActiveFlipped(spaces, id, cur);
    var tail := spaces[1..];
    if i == 0 {
      assert r[1..] == tail;
    } else {
      assert tail[i - 1] == spaces[i];
      ToggleMovesActiveCount(tail, i - 1);
      assert r[1..] == WithActiveFlipped(tail, id, cur);
      assert r[0] == spaces[0];
    }
  }

  /** The "new requests" notice of a space: shown when its count is above
      zero; a space without a count (`undefined > 0`) shows none. */
  predicate ShowsNotice(c: Counts, spaceId: string)
  {
    match Lookup(c, spaceId)
    case Some(n) => n > 0
    case None => false
  }

  /** After loading, a space shows the notice exactly when some request on
      it is pending. */
  lemma NoticeIffPending(c: Counts, requests: seq<RequestRow>, spaceId: string)
    requires Lookup(c, spaceId) == Some(PendingCount(requests, spaceId))
    ensures ShowsNotice(c, spaceId) <==>
      exists k :: 0 <= k < |requests| && requests[k].spaceId == spaceId && requests[k].status == Pending
  {
    var pending := Filter(requests, (r: RequestRow) => r.spaceId == spaceId && r.status == Pending);
    if pending != [] {
      assert pending[0] in requests;
    }
  }

  /** The dashboard's state. */
  class LandownerDashboardPage {
    var spaces: seq<OwnedSpace>
    var requestCounts: Counts

    constructor ()
      ensures spaces == [] && requestCounts == []
    {
      spaces, requestCounts := [], [];
    }

    /** `fetchSpaces`: on success the owner's spaces and their pending
        counts replace the old ones; on failure nothing changes. */
    method FetchSpaces(found: Option<seq<OwnedSpace>>, requests: seq<RequestRow>)
      modifies this
      ensures found.None? ==> spaces == old(spaces) && requestCounts == old(requestCounts)
      ensures found.Some? ==> spaces == found.value && requestCounts == CountsFor(requests, IdsOf(spaces))
      ensures found.Some? ==> UniqueKeys(requestCounts)
      ensures found.Some? ==> forall k :: 0 <= k < |spaces| ==>
        Lookup(requestCounts, spaces[k].id) == Some(PendingCount(requests, spaces[k].id))
      ensures found.Some? && Distinct(IdsOf(spaces)) ==> TotalRequestCount() == PendingOn(requests, IdsOf(spaces))
    {
      if found.Some? {
        spaces := found.value;
        requestCounts := CountPending(spaces, requests);
        if Distinct(IdsOf(spaces)) {
          TotalRequestsAfterLoad(spaces, requests, requestCounts);
        }
      }
    }

    /** `handleToggleActive`: the list shown is updated at once. */
    method ToggleActive(id: string, current: bool)
      modifies this`spaces
      ensures spaces == WithActiveFlipped(old(spaces), id, current)
      ensures |spaces| == |old(spaces)|
    {
      spaces := WithActiveFlipped(spaces, id, current);
    }

    function TotalSpaces(): nat
      reads this
    {
      |spaces|
    }

    function ActiveSpaceCount(): (n: nat)
      reads this
      ensures n <= TotalSpaces()
    {
      ActiveSpaces(spaces)
    }

    function TotalRequestCount(): nat
      reads this
    {
      TotalRequests(requestCounts)
    }
  }
}
