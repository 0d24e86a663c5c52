/** The chat page of one request (src/pages/ChatPage.tsx): the request's
    status with its timestamps, the request's message log, the page's view
    of that log, and the draft in the composer. */
module ChatPage {
  import opened Domain
  import opened Text

  /** One row of `chat_messages` for this request.  Timestamps are integer
      milliseconds. */
  datatype Message = Message(senderId: string, body: string, createdAt: int)

  /** The two values `updateStatus` accepts: 'active' and 'completed'. */
  datatype StatusAction = Start | Finish

  function TargetOf(a: StatusAction): (s: Status)
    ensures s == Active || s == Completed
  {
    match a
    case Start => Active
    case Finish => Completed
  }

  const ActivationMarker: string := "🌱"
  const CompletionMarker: string := "🏁"
  const ActivationNotice: string := "🌱 เริ่มต้นการใช้งานพื้นที่อย่างเป็นทางการ"
  const CompletionNotice: string := "🏁 จบโครงการและส่งคืนพื้นที่เรียบร้อยแล้ว"

  /** The notice body written after a successful status change. */
  function NoticeBody(a: StatusAction): string
  {
    match a
    case Start => ActivationNotice
    case Finish => CompletionNotice
  }

  /** The texts the gardener's quick-action chips put into the composer. */
  const QuickActionTexts: seq<string> := [
    "สะดวกให้เข้าไปดูพื้นที่จริงวันไหนดีครับ?",
    "รบกวนขอพิกัด Google Maps หน่อยครับ",
    "สนใจเช่าพื้นที่นี้ครับ มีค่าใช้จ่ายอย่างไรบ้าง?",
    "ส่งร่างสัญญาเช่าให้พิจารณาครับ"
  ]

  /** A message is shown as a system notice when its body starts with one
      of the two markers. */
  predicate IsSystemMessage(body: string)
  {
    StartsWith(body, ActivationMarker) || StartsWith(body, CompletionMarker)
  }

  /** Each marker is a single character, so classification looks at the
      first character only, and both notice bodies are classified as system
      messages. */
  lemma SystemClassification(body: string, a: StatusAction)
    ensures IsSystemMessage(body) <==> body != [] && (body[0] == '🌱' || body[0] == '🏁')
    ensures IsSystemMessage(NoticeBody(a))
  {
    assert NoticeBody(a)[0] == '🌱' || NoticeBody(a)[0] == '🏁';
  }

  /** Classification looks only at the body: a person who types a marker
      first is shown as a system notice too. */
  lemma TypedMarkerLooksLikeNotice(rest: string)
    ensures IsSystemMessage(ActivationMarker + rest)
  {
    assert ActivationMarker <= ActivationMarker + rest;
  }

  /** `textOverride || newMessage`: an override that is missing or empty
      falls back to the draft. */
  function ChooseText(textOverride: Option<string>, draft: string): (t: string)
    ensures textOverride.Some? && textOverride.value != [] ==> t == textOverride.value
    ensures (textOverride.None? || textOverride.value == []) ==> t == draft
  {
    if textOverride.Some? && textOverride.value != [] then textOverride.value else draft
  }

  /** The `updates` object that `updateStatus` writes: the new status, and
      exactly one timestamp field set to the time of the write. */
  datatype StatusUpdate = StatusUpdate(status: Status, startedAt: Option<int>, finishedAt: Option<int>)

  function BuildUpdate(a: StatusAction, now: int): (u: StatusUpdate)
    ensures u.status == TargetOf(a)
    ensures u.startedAt == (if a == Start then Some(now) else None)
    ensures u.finishedAt == (if a == Finish then Some(now) else None)
  {
    var u := StatusUpdate(TargetOf(a), None, None);
    var u := if a == Start then u.(startedAt := Some(now)) else u;
    if a == Finish then u.(finishedAt := Some(now)) else u
  }

  // History ordering: `.order("created_at", { ascending: true })`.

  predicate SortedByTime(s: seq<Message>)
  {
    forall j, k :: 0 <= j < k < |s| ==> s[j].createdAt <= s[k].createdAt
  }

  /** Inserts `m` after every message that is not later than it. */
  function InsertByTime(s: seq<Message>, m: Message): seq<Message>
  {
    if s == [] then [m]
    else if s[|s| - 1].createdAt <= m.createdAt then s + [m]
    else InsertByTime(s[..|s| - 1], m) + [s[|s| - 1]]
  }

  /** The log in ascending `created_at` order.  The database fixes no order
      among messages with equal timestamps; this definition keeps them in
      the order they were appended (see `OrderByCreatedAtDetermined` for
      logs where that choice does not arise). */
  function OrderByCreatedAt(s: seq<Message>): seq<Message>
  {
    if s == [] then [] else InsertByTime(OrderByCreatedAt(s[..|s| - 1]), s[|s| - 1])
  }

  /** Inserting adds exactly the one message. */
  lemma {:induction false} InsertByTimeKeeps(s: seq<Message>, m: Message)
    ensures multiset(InsertByTime(s, m)) == multiset(s) + multiset{m}
  {
    if s != [] && s[|s| - 1].createdAt > m.createdAt {
      var init, last := s[..|s| - 1], s[|s| - 1];
      assert s == init + [last];
      InsertByTimeKeeps(init, m);
    }
  }

  /** Inserting into a time-ordered list keeps it in time order. */
  lemma {:induction false} InsertByTimeSorted(s: seq<Message>, m: Message)
    requires SortedByTime(s)
    ensures SortedByTime(InsertByTime(s, m))
  {
    if s != [] && s[|s| - 1].createdAt > m.createdAt {
      var init, last := s[..|s| - 1], s[|s| - 1];
      assert SortedByTime(init);
      InsertByTimeSorted(init, m);
      InsertByTimeKeeps(init, m);
      var t := InsertByTime(init, m);
      forall x | x in t
        ensures x.createdAt <= last.createdAt
      {
        assert x in multiset(t);
        assert x in multiset(init) || x == m;
      }
      forall j, k | 0 <= j < k < |t + [last]|
        ensures (t + [last])[j].createdAt <= (t + [last])[k].createdAt
      {
        if k == |t| {
          assert (t + [last])[j] == t[j] && t[j] in t;
        }
      }
    }
  }

  /** Loading history yields the messages in ascending time order ... */
  lemma {:induction false} OrderByCreatedAtSorted(s: seq<Message>)
    ensures SortedByTime(OrderByCreatedAt(s))
  {
    if s != [] {
      OrderByCreatedAtSorted(s[..|s| - 1]);
      InsertByTimeSorted(OrderByCreatedAt(s[..|s| - 1]), s[|s| - 1]);
    }
  }

  /** ... and each logged message exactly once. */
  lemma {:induction false} OrderByCreatedAtKeeps(s: seq<Message>)
    ensures multiset(OrderByCreatedAt(s)) == multiset(s)
  {
    if s != [] {
      var init, last := s[..|s| - 1], s[|s| - 1];
      calc {
        multiset(OrderByCreatedAt(s));
        multiset(InsertByTime(OrderByCreatedAt(init), last));
        { InsertByTimeKeeps(OrderByCreatedAt(init), last); }
        multiset(OrderByCreatedAt(init)) + multiset{last};
        { OrderByCreatedAtKeeps(init); }
        multiset(init) + multiset{last};
        { assert s == init + [last]; }
        multiset(s);
      }
    }
  }

  /** No two messages of the log share a timestamp. */
  predicate DistinctTimes(s: seq<Message>)
  {
    forall j, k :: 0 <= j < k < |s| ==> s[j].createdAt != s[k].createdAt
  }

  /** Two time-ordered arrangements of the same messages, none sharing a
      timestamp, are the same sequence. */
  lemma {:induction false} SortedArrangementUnique(a: seq<Message>, b: seq<Message>)
    requires SortedByTime(a) && SortedByTime(b) && DistinctTimes(a)
    requires multiset(a) == multiset(b)
    ensures a == b
  {
    assert |a| == |b| by {
      assert |multiset(a)| == |multiset(b)|;
    }
    if a != [] {
      LastAgree(a, b);
      InitsAgree(a, b);
      var a', b' := a[..|a| - 1], b[..|b| - 1];
      assert SortedByTime(a') && SortedByTime(b') && DistinctTimes(a');
      SortedArrangementUnique(a', b');
      assert a == a' + [a[|a| - 1]] && b == b' + [b[|b| - 1]];
    }
  }

  /** Removing the same last message from two arrangements of the same
      messages leaves arrangements of the same messages. */
  lemma InitsAgree(a: seq<Message>, b: seq<Message>)
    requires a != [] && b != [] && a[|a| - 1] == b[|b| - 1]
    requires multiset(a) == multiset(b)
    ensures multiset(a[..|a| - 1]) == multiset(b[..|b| - 1])
  {
    var last, a', b' := a[|a| - 1], a[..|a| - 1], b[..|b| - 1];
    assert multiset(a) == multiset(a') + multiset{last} by {
      assert a == a' + [last];
    }
    assert multiset(b) == multiset(b') + multiset{last} by {
      assert b == b' + [last];
    }
    forall x
      ensures multiset(a')[x] == multiset(b')[x]
    {
      assert multiset(a)[x] == multiset(b)[x];
    }
  }

  /** ... because the latest message of either is the latest of the other. */
  lemma LastAgree(a: seq<Message>, b: seq<Message>)
    requires SortedByTime(a) && SortedByTime(b) && DistinctTimes(a)
    requires multiset(a) == multiset(b) && a != [] && b != []
    ensures a[|a| - 1] == b[|b| - 1]
  {
    var la, lb := a[|a| - 1], b[|b| - 1];
    assert lb in multiset(a) && la in multiset(b);
    var k :| 0 <= k < |a| && a[k] == lb;
    var m :| 0 <= m < |b| && b[m] == la;
    assert a[k].createdAt <= la.createdAt && b[m].createdAt <= lb.createdAt;
    assert a[k].createdAt == la.createdAt;
  }

  /** A log without shared timestamps holds each message at most once. */
  lemma {:induction false} DistinctTimesOnce(s: seq<Message>, v: Message)
    requires DistinctTimes(s)
    ensures multiset(s)[v] <= 1
  {
    if s != [] {
      var init, last := s[..|s| - 1], s[|s| - 1];
      assert s == init + [last];
      assert DistinctTimes(init);
      DistinctTimesOnce(init, v);
      if last == v {
        assert v !in init;
      }
    }
  }

  /** In a sequence holding each value at most once, positions differ in value. */
  lemma NoRepeat(o: seq<Message>, j: nat, k: nat)
    requires j < k < |o|
    requires forall v :: multiset(o)[v] <= 1
    ensures o[j] != o[k]
  {
    var v := o[k];
    assert o == o[..k] + o[k..];
    assert multiset(o) == multiset(o[..k]) + multiset(o[k..]);
    assert multiset(o)[v] <= 1 && multiset(o[k..])[v] >= 1;
    assert v !in multiset(o[..k]);
    assert o[j] == o[..k][j];
  }

  /** When no two messages share a timestamp, every ascending arrangement of
      the log (whatever order the database returns ties in) is the one
      loaded. */
  lemma OrderByCreatedAtDetermined(s: seq<Message>, t: seq<Message>)
    requires DistinctTimes(s) && SortedByTime(t) && multiset(t) == multiset(s)
    ensures OrderByCreatedAt(s) == t
  {
    OrderByCreatedAtSorted(s);
    OrderByCreatedAtKeeps(s);
    var o := OrderByCreatedAt(s);
    forall v
      ensures multiset(o)[v] <= 1
    {
      DistinctTimesOnce(s, v);
    }
    forall j, k | 0 <= j < k < |o|
      ensures o[j].createdAt != o[k].createdAt
    {
      NoRepeat(o, j, k);
      assert o[j] in multiset(s) && o[k] in multiset(s);
      var x :| 0 <= x < |s| && s[x] == o[j];
      var y :| 0 <= y < |s| && s[y] == o[k];
    }
    SortedArrangementUnique(o, t);
  }

  /** A log that is already in time order loads in exactly its own order. */
  lemma {:induction false} OrderByCreatedAtOfSorted(s: seq<Message>)
    requires SortedByTime(s)
    ensures OrderByCreatedAt(s) == s
  {
    if s != [] {
      var init := s[..|s| - 1];
      OrderByCreatedAtOfSorted(init);
      assert s == init + [s[|s| - 1]];
    }
  }

  /** One request as seen from its chat page.  `status` and the timestamps
      are the request's row; `viewStatus` is the page's `requestInfo`
      snapshot of that row, which the buttons and the composer read.  The
      snapshot is taken when the page opens and again after the page's own
      successful status write; nothing else refreshes it, since the page
      subscribes only to new chat messages. */
  class ChatRoom {
    const gardenerId: string
    const ownerId: string
    var status: Status
    var viewStatus: Status
    var startedAt: Option<int>
    var finishedAt: Option<int>
    /** The request's rows of `chat_messages`, in the order they were written. */
    var log: seq<Message>
    /** The page's `messages` state. */
    var shown: seq<Message>
    /** The composer's `newMessage` state. */
    var draft: string

    /** Opening the page: the request row and, when the first read of the
        history returns rows, that history in time order (otherwise no
        messages), with an empty composer. */
    constructor (gardenerId: string, ownerId: string, status: Status,
                 startedAt: Option<int>, finishedAt: Option<int>, log: seq<Message>, readOk: bool)
      ensures this.gardenerId == gardenerId && this.ownerId == ownerId
      ensures this.status == status && this.startedAt == startedAt && this.finishedAt == finishedAt
      ensures viewStatus == status
      ensures this.log == log && draft == []
      ensures shown == if readOk then OrderByCreatedAt(log) else []
    {
      this.gardenerId, this.ownerId := gardenerId, ownerId;
      this.status, this.startedAt, this.finishedAt := status, startedAt, finishedAt;
      viewStatus := status;
      this.log := log;
      shown := if readOk then OrderByCreatedAt(log) else [];
      draft := [];
    }

    predicate IsGardener(user: string)
      reads this
    {
      user == gardenerId
    }

    predicate IsLandowner(user: string)
      reads this
    {
      user == ownerId
    }

    /** The "start planting" button. */
    predicate CanStart(user: string)
      reads this
    {
      IsGardener(user) && viewStatus == Approved
    }

    /** The "finish" button, for either party. */
    predicate CanFinish(user: string)
      reads this
    {
      (IsGardener(user) || IsLandowner(user)) && viewStatus == Active
    }

    /** The composer is replaced by a closing note once the request is completed. */
    predicate ComposerOpen()
      reads this
    {
      viewStatus != Completed
    }

    /** The quick-action chips sit inside the composer and are the gardener's. */
    predicate QuickActionsShown(user: string)
      reads this
    {
      ComposerOpen() && IsGardener(user)
    }

    /** `updateStatus`: writes the new status and its timestamp whatever the
        current status is; only after a successful write is the snapshot
        re-read and the notice inserted, and the notice is logged only if
        that insert succeeds too. */
    method UpdateStatus(user: string, a: StatusAction, now: int, writeOk: bool, noticeOk: bool)
      modifies this
      ensures writeOk ==> status == TargetOf(a) && viewStatus == status
      ensures !writeOk ==> viewStatus == old(viewStatus)
      ensures writeOk ==> startedAt == (if a == Start then Some(now) else old(startedAt))
      ensures writeOk ==> finishedAt == (if a == Finish then Some(now) else old(finishedAt))
      ensures !writeOk ==> status == old(status) && startedAt == old(startedAt) && finishedAt == old(finishedAt)
      ensures log == if writeOk && noticeOk then old(log) + [Message(user, NoticeBody(a), now)] else old(log)
      ensures shown == old(shown) && draft == old(draft)
    {
      if writeOk {
        var u := BuildUpdate(a, now);
        status := u.status;
        viewStatus := status;
        if u.startedAt.Some? {
          startedAt := u.startedAt;
        }
        if u.finishedAt.Some? {
          finishedAt := u.finishedAt;
        }
        if noticeOk {
          log := log + [Message(user, NoticeBody(a), now)];
        }
      }
    }

    /** The same `updateStatus` issued from another page open on this
        request (the other party's, or another tab): the row and the log
        change, this page's snapshot does not. */
    method WrittenElsewhere(other: string, a: StatusAction, now: int, writeOk: bool, noticeOk: bool)
      modifies this
      ensures writeOk ==> status == TargetOf(a)
      ensures writeOk ==> startedAt == (if a == Start then Some(now) else old(startedAt))
      ensures writeOk ==> finishedAt == (if a == Finish then Some(now) else old(finishedAt))
      ensures !writeOk ==> status == old(status) && startedAt == old(startedAt) && finishedAt == old(finishedAt)
      ensures viewStatus == old(viewStatus)
      ensures log == if writeOk && noticeOk then old(log) + [Message(other, NoticeBody(a), now)] else old(log)
      ensures shown == old(shown) && draft == old(draft)
    {
      var snapshot := viewStatus;
      UpdateStatus(other, a, now, writeOk, noticeOk);
      viewStatus := snapshot;
    }

    /** Confirming the start dialog, which is rendered only when `CanStart`.
        The write is a lifecycle step exactly when the row is still
        approved, which holds whenever the snapshot is current. */
    method ConfirmStart(user: string, now: int, writeOk: bool, noticeOk: bool)
      requires CanStart(user)
      modifies this
      ensures writeOk ==> status == Active && viewStatus == Active && startedAt == Some(now)
      ensures writeOk ==> (Step(old(status), status) <==> old(status) == Approved)
      ensures writeOk && old(status) == old(viewStatus) ==> Step(old(status), status)
      ensures !writeOk ==> viewStatus == old(viewStatus)
      ensures writeOk ==> finishedAt == old(finishedAt)
      ensures !writeOk ==> status == old(status) && startedAt == old(startedAt) && finishedAt == old(finishedAt)
      ensures log == if writeOk && noticeOk then old(log) + [Message(user, ActivationNotice, now)] else old(log)
      ensures shown == old(shown) && draft == old(draft)
    {
      UpdateStatus(user, Start, now, writeOk, noticeOk);
    }

    /** Confirming the finish dialog, which is rendered only when
        `CanFinish`.  The write is a lifecycle step exactly when the row is
        still active, which holds whenever the snapshot is current; on a row
        already completed elsewhere it rewrites `finished_at` and logs a
        second completion notice. */
    method ConfirmFinish(user: string, now: int, writeOk: bool, noticeOk: bool)
      requires CanFinish(user)
      modifies this
      ensures writeOk ==> status == Completed && viewStatus == Completed && finishedAt == Some(now)
      ensures writeOk ==> (Step(old(status), status) <==> old(status) == Active)
      ensures writeOk && old(status) == old(viewStatus) ==> Step(old(status), status)
      ensures !writeOk ==> viewStatus == old(viewStatus)
      ensures writeOk ==> startedAt == old(startedAt)
      ensures !writeOk ==> status == old(status) && startedAt == old(startedAt) && finishedAt == old(finishedAt)
      ensures log == if writeOk && noticeOk then old(log) + [Message(user, CompletionNotice, now)] else old(log)
      ensures shown == old(shown) && draft == old(draft)
    {
      UpdateStatus(user, Finish, now, writeOk, noticeOk);
    }

    /** `handleSendMessage`: blank text does nothing; otherwise the trimmed
        text is inserted under the sender's id and the draft is cleared,
        whether or not the insert succeeded. */
    method SendMessage(user: string, textOverride: Option<string>, now: int, insertOk: bool)
      returns (sent: bool)
      modifies this
      ensures sent <==> !AllWhitespace(ChooseText(textOverride, old(draft)))
      ensures !sent ==> log == old(log) && draft == old(draft)
      ensures sent ==> draft == []
      ensures sent ==> log == old(log) + (if insertOk then [Message(user, Trim(ChooseText(textOverride, old(draft))), now)] else [])
      ensures status == old(status) && viewStatus == old(viewStatus)
      ensures startedAt == old(startedAt) && finishedAt == old(finishedAt)
      ensures shown == old(shown)
    {
      var text := ChooseText(textOverride, draft);
      TrimEmptyIff(text);
      if Trim(text) == [] {
        return false;
      }
      if insertOk {
        log := log + [Message(user, Trim(text), now)];
      }
      draft := [];
      sent := true;
    }

    /** The realtime handler: a newly inserted row goes to the end of the
        page's messages; earlier entries stay as they are. */
    method ReceiveLive(m: Message)
      modifies this`shown
      ensures shown == old(shown) + [m]
      ensures |old(shown)| < |shown| && shown[..|old(shown)|] == old(shown)
    {
      shown := shown + [m];
    }

    /** `fetchMessages`: when the read returns rows, the page's messages
        become the log in time order; otherwise they stay as they were. */
    method ReloadHistory(readOk: bool)
      modifies this`shown
      ensures readOk ==> shown == OrderByCreatedAt(log)
      ensures readOk ==> SortedByTime(shown) && multiset(shown) == multiset(log)
      ensures !readOk ==> shown == old(shown)
    {
      if readOk {
        OrderByCreatedAtSorted(log);
        OrderByCreatedAtKeeps(log);
        shown := OrderByCreatedAt(log);
      }
    }

    /** A quick-action chip puts its text into the composer. */
    method PickQuickAction(user: string, k: nat)
      requires QuickActionsShown(user) && k < |QuickActionTexts|
      modifies this`draft
      ensures draft == QuickActionTexts[k]
    {
      draft := QuickActionTexts[k];
    }
  }

  /** Against the snapshot, the buttons follow the lifecycle graph: start is
      offered only on the approved -> active edge and only to the gardener,
      finish only on the active -> completed edge, never both at once, and a
      request seen as completed offers neither and closes the composer. */
  lemma OfferedActionsFollowLifecycle(room: ChatRoom, user: string)
    ensures room.CanStart(user) ==> Step(room.viewStatus, TargetOf(Start)) && user == room.gardenerId
    ensures room.CanFinish(user) ==> Step(room.viewStatus, TargetOf(Finish)) && user in {room.gardenerId, room.ownerId}
    ensures !(room.CanStart(user) && room.CanFinish(user))
    ensures room.viewStatus == Completed ==> !room.CanStart(user) && !room.CanFinish(user) && !room.ComposerOpen()
    ensures room.QuickActionsShown(user) ==> user == room.gardenerId
    ensures user != room.gardenerId ==> !room.CanStart(user)
  {
  }

  /** A snapshot left at active after the other party finished the request
      (`WrittenElsewhere` keeps the snapshot) still offers "finish" to both
      parties and keeps the composer open, although completing is no
      lifecycle step from the row's actual status. */
  lemma StaleViewOffersFinish(room: ChatRoom, user: string)
    requires room.status == Completed && room.viewStatus == Active
    requires user == room.gardenerId || user == room.ownerId
    ensures room.CanFinish(user) && room.ComposerOpen()
    ensures !Step(room.status, TargetOf(Finish))
  {
  }
}
