/** The gardener's dashboard (src/pages/GardenerDashboard.tsx): the farm in
    use, the search over open spaces, the countdown to the end of the lease,
    owner names and the status labels of the gardener's requests. */
module GardenerDashboard {
  import opened Domain
  import opened Text
  import opened Seqs

  /** A listed space, as the browse tab reads it. */
  datatype Listing = Listing(id: string, ownerId: string, title: string, address: string)

  /** The space joined to a request; `availableTo` is the end of the lease
      in milliseconds, or `None` when the column is empty. */
  datatype LeasedSpace = LeasedSpace(title: string, address: string, availableTo: Option<int>)

  /** One of the gardener's requests with its space; times in milliseconds. */
  datatype GardenerRequest = GardenerRequest(id: string, status: Status, createdAt: int, startedAt: Option<int>, space: LeasedSpace)

  datatype Profile = Profile(id: string, name: Option<string>)

  /** `activeFarm`: the first of the gardener's requests that is active. */
  function ActiveFarm(requests: seq<GardenerRequest>): Option<GardenerRequest>
  {
    Find(requests, (r: GardenerRequest) => r.status == Active)
  }

  /** There is an active farm exactly when some request is active, and it
      is the first active one in the list. */
  lemma ActiveFarmIsFirstActive(requests: seq<GardenerRequest>)
    ensures ActiveFarm(requests).None? <==> forall k :: 0 <= k < |requests| ==> requests[k].status != Active
    ensures ActiveFarm(requests).Some? ==>
      exists i :: 0 <= i < |requests| && requests[i] == ActiveFarm(requests).value && requests[i].status == Active
        && forall j :: 0 <= j < i ==> requests[j].status != Active
  {
    FindIsFirst(requests, (r: GardenerRequest) => r.status == Active);
  }

  /** A space matches the search when its lower-cased title or address
      contains the lower-cased term. */
  predicate Matches(s: Listing, term: string)
  {
    Contains(ToLower(s.title), ToLower(term)) || Contains(ToLower(s.address), ToLower(term))
  }

  /** `filteredSpaces`. */
  function SearchSpaces(spaces: seq<Listing>, term: string): seq<Listing>
  {
    Filter(spaces, (s: Listing) => Matches(s, term))
  }

  /** The search keeps the spaces that match, drops the others and keeps
      the listing order. */
  lemma SearchKeepsMatchesInOrder(spaces: seq<Listing>, term: string)
    ensures SubsequenceOf(SearchSpaces(spaces, term), spaces)
    ensures forall k :: 0 <= k < |spaces| ==> (spaces[k] in SearchSpaces(spaces, term) <==> Matches(spaces[k], term))
  {
    FilterIsSubsequence(spaces, (s: Listing) => Matches(s, term));
  }

  /** An empty search term keeps every space. */
  lemma EmptySearchKeepsAll(spaces: seq<Listing>)
    ensures SearchSpaces(spaces, "") == spaces
  {
    FilterKeepsAll(spaces, (s: Listing) => Matches(s, ""));
  }

  /** The search ignores the case of the term. */
  lemma SearchIgnoresCase(spaces: seq<Listing>, term: string)
    ensures SearchSpaces(spaces, ToLower(term)) == SearchSpaces(spaces, term)
  {
    ToLowerIdempotent(term);
    FilterCongruent(spaces, (s: Listing) => Matches(s, ToLower(term)), (s: Listing) => Matches(s, term));
  }

  /** Milliseconds in a day. */
  const DayMs: int := 1000 * 60 * 60 * 24

  /** `Math.ceil(a / b)` for a positive divisor: the least `r` with
      `r * b >= a`. */
  function CeilDiv(a: int, b: int): (r: int)
    requires b > 0
    ensures r * b >= a && (r - 1) * b < a
  {
    -((-a) / b)
  }

  /** Days of the lease, at least one. */
  function TotalDays(start: int, end: int): (d: int)
    ensures d >= 1
    ensures d >= CeilDiv(end - start, DayMs)
  {
    Max(1, CeilDiv(end - start, DayMs))
  }

  /** Whole days left before the end, never negative. */
  function DaysLeft(end: int, now: int): (d: nat)
  {
    Max(0, CeilDiv(end - now, DayMs))
  }

  function Max(a: int, b: int): (m: int)
    ensures m >= a && m >= b && (m == a || m == b)
  {
    if a >= b then a else b
  }

  /** `Math.min(100, Math.max(0, x))`. */
  function ClampPercent(x: real): (c: real)
    ensures 0.0 <= c <= 100.0
    ensures 0.0 <= x <= 100.0 ==> c == x
  {
    if x < 0.0 then 0.0 else if x > 100.0 then 100.0 else x
  }

  /** The countdown of the farm card. */
  datatype Countdown = Countdown(days: nat, percent: real)

  /** `getDaysRemaining`: nothing to count without an end date; otherwise
      the lease runs from `started_at` (or `created_at` before the start)
      to the end date, the days left are never negative and the share of
      days passed is clamped to 0..100. */
  function DaysRemaining(r: GardenerRequest, now: int): (c: Countdown)
    ensures 0.0 <= c.percent <= 100.0
    ensures r.space.availableTo.None? ==> c == Countdown(0, 0.0)
  {
    if r.space.availableTo.None? then Countdown(0, 0.0)
    else
      var start := LeaseStart(r);
      var end := r.space.availableTo.value;
      var total := TotalDays(start, end);
      var passed := CeilDiv(now - start, DayMs);
      Countdown(DaysLeft(end, now), ClampPercent(passed as real / total as real * 100.0))
  }

  /** `started_at || created_at`. */
  function LeaseStart(r: GardenerRequest): int
  {
    if r.startedAt.Some? then r.startedAt.value else r.createdAt
  }

  /** The days left cover the time left and overshoot it by less than a
      day; they reach zero exactly when the end has come. */
  lemma DaysLeftCoversRest(end: int, now: int)
    ensures DaysLeft(end, now) * DayMs >= end - now
    ensures end > now ==> (DaysLeft(end, now) - 1) * DayMs < end - now
    ensures DaysLeft(end, now) == 0 <==> end <= now
  {
  }

  /** Before the lease starts the bar is empty; once as many days have
      passed as the lease lasts, it is full. */
  lemma ProgressEnds(r: GardenerRequest, now: int)
    requires r.space.availableTo.Some?
    ensures now <= LeaseStart(r) ==> DaysRemaining(r, now).percent == 0.0
    ensures CeilDiv(now - LeaseStart(r), DayMs) >= TotalDays(LeaseStart(r), r.space.availableTo.value) ==>
      DaysRemaining(r, now).percent == 100.0
  {
    var start := LeaseStart(r);
    var total := TotalDays(start, r.space.availableTo.value);
    var passed := CeilDiv(now - start, DayMs);
    if now <= start {
      assert passed <= 0;
      ShareBounds(passed as real, total as real);
    }
    if passed >= total {
      ShareBounds(passed as real, total as real);
    }
  }

  /** A share of a positive whole is at most zero when the part is, and at
      least one when the part covers the whole. */
  lemma ShareBounds(part: real, whole: real)
    requires whole > 0.0
    ensures part <= 0.0 ==> part / whole <= 0.0
    ensures part >= whole ==> part / whole >= 1.0
  {
    assert (part / whole) * whole == part;
  }

  /** What `formatDateRange` shows; the locale formatting of the dates is
      not modelled. */
  datatype DateRange = Unspecified | Range(from: string, to: string)

  /** Without both ends the range reads "not specified". */
  function FormatDateRange(from: Option<string>, to: Option<string>): (d: DateRange)
    ensures d == Unspecified <==> !Present(from) || !Present(to)
    ensures d.Range? ==> d.from == from.value && d.to == to.value
  {
    if !Present(from) || !Present(to) then Unspecified else Range(from.value, to.value)
  }

  /** `[...new Set(spaces.map(s => s.owner_id))]`. */
  function OwnerIds(spaces: seq<Listing>): (ids: seq<string>)
    ensures Distinct(ids)
    ensures forall k :: 0 <= k < |spaces| ==> spaces[k].ownerId in ids
    ensures forall k :: 0 <= k < |ids| ==> exists j :: 0 <= j < |spaces| && spaces[j].ownerId == ids[k]
  {
    var all := seq(|spaces|, k requires 0 <= k < |spaces| => spaces[k].ownerId);
    var ids := Dedup(all);
    assert forall k :: 0 <= k < |spaces| ==> spaces[k].ownerId == all[k];
    ids
  }

  const UnnamedOwner: string := "ไม่ระบุชื่อ"

  /** The owner's name: the name on the first profile with that id, or
      "unnamed" when there is no such profile or its name is empty. */
  function OwnerNameOf(profiles: seq<Profile>, ownerId: string): string
  {
    match Find(profiles, (p: Profile) => p.id == ownerId)
    case Some(p) => if Present(p.name) then p.name.value else UnnamedOwner
    case None => UnnamedOwner
  }

  /** A space's owner name comes from a profile with the owner's id: the
      first profile with that id decides, showing its name when it has
      one and the default otherwise, and without such a profile the
      default is shown. */
  lemma OwnerNameResolution(profiles: seq<Profile>, ownerId: string)
    ensures OwnerNameOf(profiles, ownerId) == UnnamedOwner ||
      exists k :: 0 <= k < |profiles| && profiles[k].id == ownerId && profiles[k].name == Some(OwnerNameOf(profiles, ownerId))
    ensures (forall k :: 0 <= k < |profiles| ==> profiles[k].id != ownerId) ==> OwnerNameOf(profiles, ownerId) == UnnamedOwner
    ensures forall k :: 0 <= k < |profiles| && profiles[k].id == ownerId && (forall j :: 0 <= j < k ==> profiles[j].id != ownerId) ==>
      OwnerNameOf(profiles, ownerId) == if Present(profiles[k].name) then profiles[k].name.value else UnnamedOwner
  {
    FindIsFirst(profiles, (p: Profile) => p.id == ownerId);
  }

  /** Each listed space with its owner's name, in listing order. */
  function WithOwnerNames(spaces: seq<Listing>, profiles: seq<Profile>): (named: seq<(Listing, string)>)
    ensures |named| == |spaces|
    ensures forall k :: 0 <= k < |named| ==> named[k] == (spaces[k], OwnerNameOf(profiles, spaces[k].ownerId))
  {
    seq(|spaces|, k requires 0 <= k < |spaces| => (spaces[k], OwnerNameOf(profiles, spaces[k].ownerId)))
  }

  const GrowingLabel: string := "กำลังปลูก"
  const FinishedLabel: string := "เสร็จสิ้น"
  const ApprovedLabel: string := "อนุมัติแล้ว"
  const UnderReviewLabel: string := "รอตรวจสอบ"

  /** The label on each of the gardener's requests. */
  function StatusLabel(s: Status): string
  {
    if s == Active then GrowingLabel
    else if s == Completed then FinishedLabel
    else if s == Approved then ApprovedLabel
    else UnderReviewLabel
  }

  /** Active, completed and approved requests carry labels of their own;
      every other status reads "under review". */
  lemma StatusLabelsDistinguish(s: Status)
    ensures StatusLabel(s) == GrowingLabel <==> s == Active
    ensures StatusLabel(s) == FinishedLabel <==> s == Completed
    ensures StatusLabel(s) == ApprovedLabel <==> s == Approved
    ensures StatusLabel(s) == UnderReviewLabel <==> s == Pending || s == Rejected
  {
    assert GrowingLabel[0] == 'ก' && FinishedLabel[0] == 'เ' && ApprovedLabel[0] == 'อ' && UnderReviewLabel[0] == 'ร';
  }
}
