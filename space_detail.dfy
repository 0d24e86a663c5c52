/** The space detail page (src/pages/SpaceDetail.tsx): the photo gallery and
    its carousel, the occupancy and open-request lookups, the booking panel
    and the request a gardener submits. */
module SpaceDetail {
  import opened Domain
  import opened Text
  import opened Seqs

  /** The columns of `urban_farm_spaces` that the page's logic reads. */
  datatype SpaceRecord = SpaceRecord(id: string, ownerId: string, gallery: Option<seq<string>>, imageUrl: Option<string>)

  /** The gallery: the stored gallery when it has photos, otherwise the
      single main image when there is one, otherwise nothing. */
  function Gallery(gallery: Option<seq<string>>, imageUrl: Option<string>): (g: seq<string>)
    ensures gallery.Some? && gallery.value != [] ==> g == gallery.value
    ensures !(gallery.Some? && gallery.value != []) && Present(imageUrl) ==> g == [imageUrl.value]
    ensures !(gallery.Some? && gallery.value != []) && !Present(imageUrl) ==> g == []
  {
    if gallery.Some? && |gallery.value| > 0 then gallery.value
    else if Present(imageUrl) then [imageUrl.value]
    else []
  }

  /** The gallery is empty only when the record has no photo at all, and
      every photo it shows comes from the record. */
  lemma GalleryFromRecord(gallery: Option<seq<string>>, imageUrl: Option<string>)
    ensures Gallery(gallery, imageUrl) == [] <==> (gallery.None? || gallery.value == []) && !Present(imageUrl)
    ensures forall k :: 0 <= k < |Gallery(gallery, imageUrl)| ==>
      (gallery.Some? && Gallery(gallery, imageUrl)[k] in gallery.value) || Gallery(gallery, imageUrl)[k] == imageUrl.value
  {
  }

  const OwnerFallback: string := "เจ้าของพื้นที่"

  /** `owner?.name || "เจ้าของพื้นที่"`. */
  function OwnerName(profileName: Option<string>): (n: string)
    ensures Present(profileName) ==> n == profileName.value
    ensures !Present(profileName) ==> n == OwnerFallback
  {
    if Present(profileName) then profileName.value else OwnerFallback
  }

  /** `.maybeSingle()`: the row when exactly one row matches, and no row
      (null data) both when none matches and when several do. */
  function MaybeSingle<T>(rows: seq<T>): (r: Option<T>)
    ensures r.Some? <==> |rows| == 1
    ensures r.Some? ==> r.value == rows[0]
  {
    if |rows| == 1 then Some(rows[0]) else None
  }

  /** The requests on `spaceId` whose status is active. */
  function ActiveOn(requests: seq<RequestRow>, spaceId: string): seq<RequestRow>
  {
    Filter(requests, (r: RequestRow) => r.spaceId == spaceId && r.status == Active)
  }

  /** The occupancy check as written: `maybeSingle()` over the active
      requests of the space. */
  predicate OccupiedAsWritten(requests: seq<RequestRow>, spaceId: string)
  {
    MaybeSingle(ActiveOn(requests, spaceId)).Some?
  }

  /** Two active requests on one space are reported as "not occupied".
      The status write on the chat page has no occupancy check, so two
      approved requests on one space can both be started. */
  lemma OccupiedAsWrittenMissesTwoActive()
    ensures var requests := [RequestRow("r1", "s", "g1", Active), RequestRow("r2", "s", "g2", Active)];
      && (forall k :: 0 <= k < |requests| ==> requests[k].spaceId == "s" && requests[k].status == Active)
      && !OccupiedAsWritten(requests, "s")
  {
    var requests := [RequestRow("r1", "s", "g1", Active), RequestRow("r2", "s", "g2", Active)];
    assert ActiveOn(requests, "s") == requests by {
      FilterKeepsAll(requests, (r: RequestRow) => r.spaceId == "s" && r.status == Active);
    }
  }

  /** The occupancy the page means: some request on the space is active. */
  predicate IsOccupied(requests: seq<RequestRow>, spaceId: string)
  {
    ActiveOn(requests, spaceId) != []
  }

  /** The space is occupied exactly when some request on it is active, and
      the check as written agrees with it while at most one request on the
      space is active. */
  lemma IsOccupiedIff(requests: seq<RequestRow>, spaceId: string)
    ensures IsOccupied(requests, spaceId) <==>
      exists k :: 0 <= k < |requests| && requests[k].spaceId == spaceId && requests[k].status == Active
    ensures |ActiveOn(requests, spaceId)| <= 1 ==> (OccupiedAsWritten(requests, spaceId) <==> IsOccupied(requests, spaceId))
  {
    var active := ActiveOn(requests, spaceId);
    if active != [] {
      assert active[0] in requests;
    }
  }

  /** A request that still holds a place in the queue or on the land. */
  predicate IsOpen(s: Status)
  {
    s == Pending || s == Approved || s == Active
  }

  function OpenRequestsOf(requests: seq<RequestRow>, spaceId: string, gardenerId: string): seq<RequestRow>
  {
    Filter(requests, (r: RequestRow) => r.spaceId == spaceId && r.gardenerId == gardenerId && IsOpen(r.status))
  }

  /** The gardener's own open request on the space, looked up with
      `maybeSingle()`. */
  function OpenRequest(requests: seq<RequestRow>, spaceId: string, gardenerId: string): (r: Option<RequestRow>)
    ensures r.Some? ==>
      && r.value in requests && r.value.spaceId == spaceId
      && r.value.gardenerId == gardenerId && IsOpen(r.value.status)
    ensures r.Some? <==> |OpenRequestsOf(requests, spaceId, gardenerId)| == 1
  {
    var open := OpenRequestsOf(requests, spaceId, gardenerId);
    if |open| == 1 then assert open[0] in open; Some(open[0]) else None
  }

  /** With no open request of that gardener on the space, none is found. */
  lemma {:induction false} NoOpenRequestFound(requests: seq<RequestRow>, spaceId: string, gardenerId: string)
    requires forall k :: 0 <= k < |requests| ==>
      !(requests[k].spaceId == spaceId && requests[k].gardenerId == gardenerId && IsOpen(requests[k].status))
    ensures OpenRequestsOf(requests, spaceId, gardenerId) == []
    ensures OpenRequest(requests, spaceId, gardenerId) == None
  {
    FilterKeepsNone(requests, (r: RequestRow) => r.spaceId == spaceId && r.gardenerId == gardenerId && IsOpen(r.status));
  }

  /** What the booking card shows. */
  datatype Panel = SignInPrompt | GardenersOnly | RequestStatus(request: RequestRow) | OccupiedBanner | RequestForm

  /** The nested choice of the booking card: signed out, then not a
      gardener, then an existing open request, then occupied, then the form. */
  function BookingPanel(user: Option<string>, role: Option<Role>, activeRequest: Option<RequestRow>, occupied: bool): Panel
  {
    if user.None? then SignInPrompt
    else if role != Some(Gardener) then GardenersOnly
    else if activeRequest.Some? then RequestStatus(activeRequest.value)
    else if occupied then OccupiedBanner
    else RequestForm
  }

  /** The form is offered exactly to a signed-in gardener with no open
      request on a space that is not occupied; a gardener's open request is
      shown even when the space is occupied. */
  lemma BookingPanelRules(user: Option<string>, role: Option<Role>, activeRequest: Option<RequestRow>, occupied: bool)
    ensures BookingPanel(user, role, activeRequest, occupied) == RequestForm <==>
      user.Some? && role == Some(Gardener) && activeRequest.None? && !occupied
    ensures user.Some? && role == Some(Gardener) && activeRequest.Some? ==>
      BookingPanel(user, role, activeRequest, occupied) == RequestStatus(activeRequest.value)
    ensures BookingPanel(user, role, activeRequest, occupied) == OccupiedBanner ==> occupied && activeRequest.None?
  {
  }

  const ApprovedLabel: string := "อนุมัติแล้ว"
  const ActiveLabel: string := "กำลังใช้งาน"
  const AwaitingLabel: string := "รอการตอบรับ"

  /** The badge on the gardener's own request. */
  function BadgeLabel(s: Status): string
  {
    if s == Approved then ApprovedLabel
    else if s == Active then ActiveLabel
    else AwaitingLabel
  }

  /** Approved and active get labels of their own; every other status reads
      "awaiting reply". */
  lemma BadgeLabelsDistinguish(s: Status)
    ensures BadgeLabel(s) == ApprovedLabel <==> s == Approved
    ensures BadgeLabel(s) == ActiveLabel <==> s == Active
    ensures BadgeLabel(s) == AwaitingLabel <==> s != Approved && s != Active
  {
    assert ApprovedLabel != ActiveLabel && ApprovedLabel != AwaitingLabel && ActiveLabel != AwaitingLabel by {
      assert ApprovedLabel[0] == 'อ' && ActiveLabel[0] == 'ก' && AwaitingLabel[0] == 'ร';
    }
  }

  /** The row `handleSubmitRequest` inserts. */
  datatype NewRequest = NewRequest(spaceId: string, gardenerId: string, message: Option<string>)

  datatype SubmitOutcome = GoToSignIn | Insert(row: NewRequest)

  /** Submitting a request: signed-out visitors are sent to sign in; the
      note is the trimmed text, or null when nothing but whitespace was typed. */
  function SubmitRequest(user: Option<string>, spaceId: string, text: string): (o: SubmitOutcome)
    ensures o == GoToSignIn <==> user.None?
    ensures o.Insert? ==> o.row.spaceId == spaceId && o.row.gardenerId == user.value
    ensures o.Insert? ==> (o.row.message.None? <==> AllWhitespace(text))
    ensures o.Insert? && o.row.message.Some? ==> o.row.message.value == Trim(text)
  {
    TrimEmptyIff(text);
    if user.None? then GoToSignIn
    else Insert(NewRequest(spaceId, user.value, if Trim(text) == [] then None else Some(Trim(text))))
  }

  /** After a successful submission the refreshed page finds the new
      request (stored as pending) as the gardener's open request, so the
      card shows its status instead of the form. */
  lemma SubmittedRequestIsShown(requests: seq<RequestRow>, spaceId: string, gardener: string, newId: string, occupied: bool)
    requires forall k :: 0 <= k < |requests| ==>
      !(requests[k].spaceId == spaceId && requests[k].gardenerId == gardener && IsOpen(requests[k].status))
    ensures var row := RequestRow(newId, spaceId, gardener, Pending);
      var found := OpenRequest(requests + [row], spaceId, gardener);
      && found == Some(row)
      && BookingPanel(Some(gardener), Some(Gardener), found, occupied) == RequestStatus(row)
  {
    var row := RequestRow(newId, spaceId, gardener, Pending);
    var p := (r: RequestRow) => r.spaceId == spaceId && r.gardenerId == gardener && IsOpen(r.status);
    NoOpenRequestFound(requests, spaceId, gardener);
    FilterAppend(requests, [row], p);
    assert Filter([row], p) == [row];
  }

  /** The carousel's "next" arrow. */
  function NextIndex(i: nat, n: nat): (j: nat)
    requires n > 0
    ensures j < n
  {
    (i + 1) % n
  }

  /** The carousel's "previous" arrow; `i - 1 + n` is never negative, so
      the remainder agrees with the page's `%`. */
  function PrevIndex(i: nat, n: nat): (j: nat)
    requires n > 0
    ensures j < n
  {
    (i - 1 + n) % n
  }

  /** "Next" moves one photo on, and from the last photo back to the first. */
  lemma NextIndexSteps(i: nat, n: nat)
    requires i < n
    ensures NextIndex(i, n) == if i + 1 == n then 0 else i + 1
  {
    if i + 1 == n {
      assert (i + 1) % n == (n * 1 + 0) % n;
    }
  }

  /** "Previous" moves one photo back, and from the first photo to the last. */
  lemma PrevIndexSteps(i: nat, n: nat)
    requires i < n
    ensures PrevIndex(i, n) == if i == 0 then n - 1 else i - 1
  {
    if i > 0 {
      WrapAround(i - 1, n);
    }
  }

  /** Adding one full turn does not move the index. */
  lemma WrapAround(r: nat, n: nat)
    requires r < n
    ensures (r + n) % n == r
  {
    assert (r + n) / n == 1;
  }

  /** The arrows undo each other. */
  lemma ArrowsInverse(i: nat, n: nat)
    requires i < n
    ensures PrevIndex(NextIndex(i, n), n) == i
    ensures NextIndex(PrevIndex(i, n), n) == i
  {
    NextIndexSteps(i, n);
    PrevIndexSteps(i, n);
    PrevIndexSteps(NextIndex(i, n), n);
    NextIndexSteps(PrevIndex(i, n), n);
  }

  /** The page's state. */
  class SpaceDetailView {
    var space: Option<SpaceRecord>
    var ownerName: string
    var gallery: seq<string>
    var occupied: bool
    var activeRequest: Option<RequestRow>
    var imageIndex: nat

    constructor ()
      ensures space == None && gallery == [] && !occupied && activeRequest == None && imageIndex == 0
    {
      space, ownerName, gallery := None, [], [];
      occupied, activeRequest, imageIndex := false, None, 0;
    }

    /** `fetchSpaceData`: a missing space sends the visitor home and
        changes nothing; otherwise the space, its owner's name, the gallery
        and occupancy are set, and for a signed-in gardener their open
        request is looked up (for anyone else it stays as it was).
        Occupancy is the corrected `IsOccupied`, which agrees with the
        page's single-row lookup whenever at most one request is active. */
    method Fetch(spaceId: string, found: Option<SpaceRecord>, ownerProfileName: Option<string>,
                 requests: seq<RequestRow>, user: Option<string>, role: Option<Role>)
      returns (goHome: bool)
      modifies this
      ensures goHome <==> found.None?
      ensures goHome ==>
        && space == old(space) && gallery == old(gallery) && occupied == old(occupied)
        && activeRequest == old(activeRequest) && ownerName == old(ownerName)
      ensures !goHome ==>
        && space == found && ownerName == OwnerName(ownerProfileName)
        && gallery == Gallery(found.value.gallery, found.value.imageUrl)
        && occupied == IsOccupied(requests, spaceId)
      ensures !goHome && |ActiveOn(requests, spaceId)| <= 1 ==> occupied == OccupiedAsWritten(requests, spaceId)
      ensures !goHome && user.Some? && role == Some(Gardener) ==> activeRequest == OpenRequest(requests, spaceId, user.value)
      ensures !(user.Some? && role == Some(Gardener)) ==> activeRequest == old(activeRequest)
      ensures imageIndex == old(imageIndex)
    {
      if found.None? {
        return true;
      }
      goHome := false;
      space := found;
      ownerName := OwnerName(ownerProfileName);
      gallery := Gallery(found.value.gallery, found.value.imageUrl);
      occupied := IsOccupied(requests, spaceId);
      IsOccupiedIff(requests, spaceId);
      if user.Some? && role == Some(Gardener) {
        activeRequest := OpenRequest(requests, spaceId, user.value);
      }
    }

    method NextImage()
      requires |gallery| > 0
      modifies this`imageIndex
      ensures imageIndex == NextIndex(old(imageIndex), |gallery|) && imageIndex < |gallery|
    {
      imageIndex := NextIndex(imageIndex, |gallery|);
    }

    method PrevImage()
      requires |gallery| > 0
      modifies this`imageIndex
      ensures imageIndex == PrevIndex(old(imageIndex), |gallery|) && imageIndex < |gallery|
    {
      imageIndex := PrevIndex(imageIndex, |gallery|);
    }

    /** The booking card for the current visitor. */
    function Card(user: Option<string>, role: Option<Role>): Panel
      reads this
    {
      BookingPanel(user, role, activeRequest, occupied)
    }
  }
}
