/** A guest's answer between the invitation page, a network that delays and repeats, and the server. */
module RsvpSubmission {

  import opened Basics

  /** The members attending, in the order of the invitation, and the companions brought. */
  datatype Payload = Payload(attending: seq<string>, companions: nat)

  datatype Request = Request(id: nat, payload: Payload)

  /** What the page can tell apart: a saved answer, a 409, and every other failure. */
  datatype Answer = Saved | Conflict | Failed

  /** The page's two refs. */
  datatype Page = Page(inFlight: bool, submission: Option<Request>)

  /** submitSelection up to its request: the page, and the request sent, if one is. */
  function Begin(page: Page, payload: Payload, freshId: nat): (Page, Option<Request>) {
    if page.inFlight then (page, None)
    else
      var request := match page.submission
        case Some(last) => if last.payload == payload then last else Request(freshId, payload)
        case None => Request(freshId, payload);
      (Page(true, Some(request)), Some(request))
  }

  /** submitSelection from the answer on. */
  function Settle(page: Page, answer: Answer): Page {
    Page(false, if answer == Failed then page.submission else None)
  }

  class InvitationPage {
    var inFlight: bool
    var submission: Option<Request>

    constructor ()
      ensures Value() == Page(false, None)
    {
      inFlight, submission := false, None;
    }

    ghost function Value(): Page
      reads this
    {
      Page(inFlight, submission)
    }

    method BeginSubmission(payload: Payload, freshId: nat) returns (sent: Option<Request>)
      modifies this
      ensures (Value(), sent) == Begin(old(Value()), payload, freshId)
    {
      if inFlight { return None; }
      if submission.None? || submission.value.payload != payload {
        submission := Some(Request(freshId, payload));
      }
      inFlight := true;
      return submission;
    }

    method SettleSubmission(answer: Answer)
      modifies this
      ensures Value() == Settle(old(Value()), answer)
    {
      if answer == Saved || answer == Conflict { submission := None; }
      inFlight := false;
    }
  }

  /** `open` counts the requests each page awaits; `misused` is set by the server's identifier conflict. */
  datatype World = World(
    pages: seq<Page>, open: multiset<nat>, nextId: nat, sent: set<Request>,
    recorded: map<nat, Payload>, history: seq<Payload>, answers: set<(nat, Answer)>, misused: bool)

  /** A delivery the server may refuse; an answer reaches a page only when the server gave it. */
  datatype Event =
    | Submits(page: nat, payload: Payload)
    | Arrives(request: Request, accepted: bool)
    | Hears(page: nat, answer: Answer)
    | HostAnswers(payload: Payload)

  function Stored(history: seq<Payload>): Option<Payload> {
    if history == [] then None else Some(history[|history| - 1])
  }

  /** A response equal to the stored one leaves the history as it is. */
  function Store(history: seq<Payload>, payload: Payload): seq<Payload> {
    if Stored(history) == Some(payload) then history else history + [payload]
  }

  /** applyRsvp: replay an identifier already recorded, else record and store. */
  function Receive(w: World, request: Request, accepted: bool): World {
    if request.id in w.recorded then
      if w.recorded[request.id] != request.payload
      then w.(answers := w.answers + {(request.id, Conflict)}, misused := true)
      else w.(answers := w.answers + {(request.id, Saved)})
    else if !accepted then w.(answers := w.answers + {(request.id, Conflict)})
    else w.(recorded := w.recorded[request.id := request.payload],
            history := Store(w.history, request.payload),
            answers := w.answers + {(request.id, Saved)})
  }

  function Happen(w: World, event: Event): World {
    match event
    case Submits(p, payload) =>
      if p >= |w.pages| then w else
      var (page, request) := Begin(w.pages[p], payload, w.nextId);
      if request.None? then w else
      w.(pages := w.pages[p := page], open := w.open + multiset{p}, nextId := w.nextId + 1,
         sent := w.sent + {request.value})
    case Arrives(request, accepted) => if request in w.sent then Receive(w, request, accepted) else w
    case Hears(p, answer) =>
      if p < |w.pages| && p in w.open && w.pages[p].submission.Some? &&
         (answer == Failed || (w.pages[p].submission.value.id, answer) in w.answers)
      then w.(pages := w.pages[p := Settle(w.pages[p], answer)], open := w.open - multiset{p})
      else w
    case HostAnswers(payload) => w.(history := Store(w.history, payload))
  }

  function Run(w: World, events: seq<Event>): World
    decreases |events|
  {
    if events == [] then w else Run(Happen(w, events[0]), events[1..])
  }

  function Opened(pages: nat): World {
    World(seq(pages, _ => Page(false, None)), multiset{}, 0, {}, map[], [], {}, false)
  }

  /** Equal identifiers always carry equal answers, wherever they are held. */
  ghost predicate OneAnswerPerId(w: World) {
    forall r, q :: r in w.sent && q in w.sent && r.id == q.id ==> r == q
  }

  ghost predicate Safe(w: World) {
    && OneAnswerPerId(w)
    && !w.misused
    && (forall r :: r in w.sent ==> r.id < w.nextId)
    && (forall p :: 0 <= p < |w.pages| && w.pages[p].submission.Some? ==> w.pages[p].submission.value in w.sent)
    && (forall p: nat :: w.open[p] == if p < |w.pages| && w.pages[p].inFlight then 1 else 0)
    && (forall p :: 0 <= p < |w.pages| && w.pages[p].inFlight ==> w.pages[p].submission.Some?)
    && (forall id :: id in w.recorded ==> Request(id, w.recorded[id]) in w.sent)
    && (forall id :: (id, Saved) in w.answers ==> id in w.recorded)
    && (forall k :: 0 < k < |w.history| ==> w.history[k - 1] != w.history[k])
  }

  lemma SubmitKeepsSafe(w: World, p: nat, payload: Payload)
    requires Safe(w)
    ensures Safe(Happen(w, Submits(p, payload)))
  {
  }

  lemma RecordingKeepsSafe(w: World, request: Request)
    requires Safe(w) && request in w.sent && request.id !in w.recorded
    ensures Safe(Receive(w, request, true))
  {
    var after := Receive(w, request, true);
    assert Request(request.id, after.recorded[request.id]) == request;
    StoringKeepsHistory(w.history, request.payload);
  }

  lemma StoringKeepsHistory(history: seq<Payload>, payload: Payload)
    requires forall k :: 0 < k < |history| ==> history[k - 1] != history[k]
    ensures var after := Store(history, payload); forall k :: 0 < k < |after| ==> after[k - 1] != after[k]
  {
  }

  lemma ArrivalKeepsSafe(w: World, request: Request, accepted: bool)
    requires Safe(w)
    ensures Safe(Happen(w, Arrives(request, accepted)))
  {
    if request in w.sent {
      if request.id !in w.recorded && accepted {
        RecordingKeepsSafe(w, request);
      } else if request.id in w.recorded {
        assert Request(request.id, w.recorded[request.id]) in w.sent;
      }
    }
  }

  lemma HearingKeepsSafe(w: World, p: nat, answer: Answer)
    requires Safe(w)
    ensures Safe(Happen(w, Hears(p, answer)))
  {
  }

  lemma HappenKeepsSafe(w: World, event: Event)
    requires Safe(w)
    ensures Safe(Happen(w, event))
  {
    match event
    case Submits(p, payload) => SubmitKeepsSafe(w, p, payload);
    case Arrives(request, accepted) => ArrivalKeepsSafe(w, request, accepted);
    case Hears(p, answer) => HearingKeepsSafe(w, p, answer);
    case HostAnswers(payload) =>
  }

  lemma {:induction false} RunKeepsSafe(w: World, events: seq<Event>)
    requires Safe(w)
    ensures Safe(Run(w, events))
    decreases |events|
  {
    if events != [] {
      HappenKeepsSafe(w, events[0]);
      RunKeepsSafe(Happen(w, events[0]), events[1..]);
    }
  }

  /**
   * What an arriving request does: a recorded one is saved again and changes nothing else, an accepted one is
   * recorded, stored and saved, and a refused one answers with a conflict.
   */
  lemma ArrivalExactly(w: World, request: Request, accepted: bool)
    requires Safe(w) && request in w.sent
    ensures var after := Happen(w, Arrives(request, accepted));
            if request.id in w.recorded then after == w.(answers := w.answers + {(request.id, Saved)})
            else if !accepted then after == w.(answers := w.answers + {(request.id, Conflict)})
            else
              && after.answers == w.answers + {(request.id, Saved)}
              && after.recorded == w.recorded[request.id := request.payload]
              && after.history != [] && after.history[|after.history| - 1] == request.payload
              && (after.history == w.history || after.history == w.history + [request.payload])
              && after.pages == w.pages && after.sent == w.sent && !after.misused
  {
    if request.id in w.recorded { assert Request(request.id, w.recorded[request.id]) in w.sent; }
  }

  /** A host's answer is stored, whatever was stored before, and no guest hears of it. */
  lemma HostAnswerIsStored(w: World, payload: Payload)
    ensures var after := Happen(w, HostAnswers(payload));
            && after.history != [] && after.history[|after.history| - 1] == payload
            && after == w.(history := after.history)
  {
  }

  /** A guest's answer that arrives and is accepted stays recorded, and every repetition of it is saved too. */
  lemma RepetitionsAreSaved(w: World, request: Request, accepted: bool)
    requires Safe(w) && request in w.sent
    ensures var once := Happen(w, Arrives(request, true));
            var twice := Happen(once, Arrives(request, accepted));
            twice == once && (request.id, Saved) in twice.answers && twice.recorded[request.id] == request.payload
  {
    if request.id in w.recorded { assert Request(request.id, w.recorded[request.id]) in w.sent; }
  }

  /** However pages, deliveries and hosts interleave: one answer per identifier, one request per page. */
  lemma EverySubmissionIdMeansOneAnswer(pages: nat, events: seq<Event>)
    ensures var w := Run(Opened(pages), events);
            && OneAnswerPerId(w)
            && !w.misused
            && (forall p: nat :: w.open[p] <= 1)
            && (forall k :: 0 < k < |w.history| ==> w.history[k - 1] != w.history[k])
  {
    RunKeepsSafe(Opened(pages), events);
  }

  /** A page that hears "saved" has its own answer on record, under its own identifier. */
  lemma SavedMeansRecorded(pages: nat, events: seq<Event>, p: nat)
    requires var w := Run(Opened(pages), events); p < |w.pages| && Happen(w, Hears(p, Saved)) != w
    ensures var w := Run(Opened(pages), events);
            && w.pages[p].submission.Some?
            && var request := w.pages[p].submission.value;
               request.id in w.recorded && w.recorded[request.id] == request.payload
  {
    RunKeepsSafe(Opened(pages), events);
    var w := Run(Opened(pages), events);
    var request := w.pages[p].submission.value;
    assert Request(request.id, w.recorded[request.id]) in w.sent;
  }

  /** The next request repeats the identifier exactly when nothing was decided and nothing was changed. */
  lemma RetryRepeatsTheIdExactly(page: Page, answer: Answer, payload: Payload, freshId: nat)
    requires page.inFlight && page.submission.Some? && page.submission.value.id != freshId
    ensures var (_, next) := Begin(Settle(page, answer), payload, freshId);
            && next.Some? && next.value.payload == payload
            && (next.value.id == page.submission.value.id <==>
                answer == Failed && payload == page.submission.value.payload)
  {
  }

  function Deliver(w: World, requests: seq<Request>): World
    decreases |requests|
  {
    if requests == [] then w else Deliver(Happen(w, Arrives(requests[0], true)), requests[1..])
  }

  /** Every request of the network that the server has not recorded carries the stored answer. */
  ghost predicate NothingPending(w: World) {
    forall r :: r in w.sent && r.id !in w.recorded ==> Stored(w.history) == Some(r.payload)
  }

  lemma {:induction false} PendingAnswersDecide(w: World, requests: seq<Request>)
    requires NothingPending(w)
    ensures Deliver(w, requests).history == w.history
    decreases |requests|
  {
    if requests != [] { PendingAnswersDecide(Happen(w, Arrives(requests[0], true)), requests[1..]); }
  }

  /** The stored answer outlives every late delivery if and only if no other answer is still on its way. */
  lemma StoredAnswerIsFinalExactly(w: World)
    ensures NothingPending(w) <==>
            forall late: seq<Request> :: Stored(Deliver(w, late).history) == Stored(w.history)
  {
    if NothingPending(w) {
      forall late: seq<Request> ensures Stored(Deliver(w, late).history) == Stored(w.history) {
        PendingAnswersDecide(w, late);
      }
    } else {
      var r :| r in w.sent && r.id !in w.recorded && Stored(w.history) != Some(r.payload);
      var late := [r];
      var after := Happen(w, Arrives(r, true));
      assert late[1..] == [] && Deliver(after, []) == after;
      assert Stored(Deliver(w, late).history) == Some(r.payload);
    }
  }

  /** A guest whose first answer timed out corrects it, is told "saved", and ends with the first one. */
  lemma LateDeliveryExample(first: Payload, second: Payload)
    requires first != second
    ensures var timedOut := Happen(Happen(Opened(1), Submits(0, first)), Hears(0, Failed));
            var applied := Happen(Happen(timedOut, Submits(0, second)), Arrives(Request(1, second), true));
            var told := Happen(applied, Hears(0, Saved));
            && told.pages == [Page(false, None)] && told.open == multiset{}
            && Stored(told.history) == Some(second)
            && Stored(Happen(told, Arrives(Request(0, first), true)).history) == Some(first)
  {
    var r, q := Request(0, first), Request(1, second);
    var sent := Happen(Opened(1), Submits(0, first));
    assert sent == World([Page(true, Some(r))], multiset{0}, 1, {r}, map[], [], {}, false);
    var timedOut := Happen(sent, Hears(0, Failed));
    assert timedOut == World([Page(false, Some(r))], multiset{}, 1, {r}, map[], [], {}, false);
    var again := Happen(timedOut, Submits(0, second));
    assert again == World([Page(true, Some(q))], multiset{0}, 2, {r, q}, map[], [], {}, false);
    var applied := Happen(again, Arrives(q, true));
    assert applied ==
      World([Page(true, Some(q))], multiset{0}, 2, {r, q}, map[1 := second], [second], {(1, Saved)}, false);
  }
}
