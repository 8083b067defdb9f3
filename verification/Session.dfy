/** The browser's single-flight refresh queue (web/src/lib/api/refreshQueue.ts, http.ts) running against
    the rotating tokens of the server, whose store may fail: one page, one cookie jar, no response lost, before
    logout. */
module Session {
  import Tokens

  // ----- The client

  /** A request on its way; `retried` marks the replay. */
  datatype Phase =
    | Ready(retried: bool)      // about to be sent, after a look at the access token
    | Waiting(retried: bool)    // held until the refresh under way settles
    | Granted(retried: bool)    // holds a token and is about to be sent
    | Sent(retried: bool)
    | Replaying                 // got a 401 and waits for the refresh under way
    | Finished(ok: bool)

  /** A request and how often it went over the network. */
  datatype Track = Track(phase: Phase, sends: nat)

  datatype Client = Client(access: bool, inFlight: bool, requests: map<int, Track>)

  datatype Response = Success | Unauthorized | OtherFailure

  function Set(c: Client, id: int, phase: Phase, sends: nat): Client {
    c.(requests := c.requests[id := Track(phase, sends)])
  }

  /** Starts a refresh unless one is under way. */
  function RefreshOnce(c: Client): Client {
    c.(inFlight := true)
  }

  function Begin(c: Client, id: int): Client {
    if id in c.requests then c else Set(c, id, Ready(false), 0)
  }

  /** Sends a request, or queues it behind a refresh when the access token is missing or about to expire. */
  function Proceed(c: Client, id: int, unexpired: bool): Client {
    if id !in c.requests then c
    else
      var track := c.requests[id];
      match track.phase
      case Ready(retried) =>
        if c.access && unexpired then Set(c, id, Sent(retried), track.sends + 1)
        else RefreshOnce(Set(c, id, Waiting(retried), track.sends))
      case Granted(retried) => Set(c, id, Sent(retried), track.sends + 1)
      case _ => c
  }

  /** A 401 leads to one refresh and one replay; on the replay it ends the session. */
  function OnResponse(c: Client, id: int, response: Response): Client {
    if id !in c.requests || !c.requests[id].phase.Sent? then c
    else
      var track := c.requests[id];
      if response != Unauthorized then Set(c, id, Finished(response == Success), track.sends)
      else if track.phase.retried then Set(c.(access := false), id, Finished(false), track.sends)
      else RefreshOnce(Set(c, id, Replaying, track.sends))
  }

  /** How the refresh that settles moves a request on. */
  function Settle(phase: Phase, ok: bool): Phase {
    match phase
    case Waiting(retried) => if ok then Granted(retried) else Finished(false)
    case Replaying => if ok then Ready(true) else Finished(false)
    case _ => phase
  }

  /** A refresh is granted, refused as unauthenticated, or fails for another reason. */
  datatype Settlement = Granting | SigningOut | Failing

  function OnRefreshed(c: Client, how: Settlement): Client {
    Client(
      if how == Granting then true else if how == SigningOut then false else c.access, false,
      map id | id in c.requests :: Track(Settle(c.requests[id].phase, how == Granting), c.requests[id].sends))
  }

  // ----- The client and the server together

  datatype Wire = Nothing | Asked(token: Tokens.Token) | Answered(token: Tokens.Token, answer: Tokens.Rotation)

  datatype World = World(server: Tokens.Server, cookie: Tokens.Token, client: Client, wire: Wire)

  datatype Step =
    | DoBegin(id: int)
    | DoProceed(id: int, unexpired: bool)
    | DoRespond(id: int, response: Response)
    | DoServe(now: int, ttl: int, fault: Tokens.Fault)
    | DoDeliver
    | DoElsewhere(step: Tokens.Step)

  /** The browser attaches the cookie when a refresh starts. */
  function Launch(w: World, client: Client): World {
    w.(client := client, wire := if client.inFlight && !w.client.inFlight then Asked(w.cookie) else w.wire)
  }

  /** Refusals are answered with 401, a failure of the store with 500. */
  function SettledBy(answer: Tokens.Rotation): Settlement {
    if answer.Rotated? then Granting else if answer == Tokens.StoreFailed then Failing else SigningOut
  }

  /** Steps of other sessions: they present no token of this family. */
  predicate Foreign(s: Tokens.Server, family: int, step: Tokens.Step) {
    match step
    case Login(_, _) => true
    case Refresh(raw, _, _, _) => raw in s.tokens ==> s.tokens[raw].family != family
    case Logout(raw) => raw in s.tokens ==> s.tokens[raw].family != family
  }

  function Apply(w: World, family: int, step: Step): World {
    match step
    case DoBegin(id) => w.(client := Begin(w.client, id))
    case DoProceed(id, unexpired) => Launch(w, Proceed(w.client, id, unexpired))
    case DoRespond(id, response) => Launch(w, OnResponse(w.client, id, response))
    case DoServe(now, ttl, fault) =>
      if w.wire.Asked? then
        var (server, answer) := Tokens.Rotate(w.server, w.wire.token, now, ttl, fault);
        w.(server := server, wire := Answered(w.wire.token, answer))
      else w
    case DoDeliver =>
      if w.wire.Answered? then
        var answer := w.wire.answer;
        World(w.server, if answer.Rotated? then answer.token else w.cookie, OnRefreshed(w.client, SettledBy(answer)), Nothing)
      else w
    case DoElsewhere(other) =>
      if Foreign(w.server, family, other) then w.(server := Tokens.Apply(w.server, other)) else w
  }

  function Run(w: World, family: int, steps: seq<Step>): World {
    if steps == [] then w else Apply(Run(w, family, steps[..|steps| - 1]), family, steps[|steps| - 1])
  }

  /** A page of a running session, just after a login or a reload: a usable token in the cookie, nothing under
      way, and perhaps no access token in memory. */
  ghost predicate SignedIn(w: World, family: int) {
    && Tokens.Inv(w.server) && Tokens.Live(w.server, w.cookie) && w.server.tokens[w.cookie].family == family
    && w.client == Client(w.client.access, false, map[]) && w.wire == Nothing
  }

  // ----- The invariant

  ghost predicate Ours(s: Tokens.Server, t: Tokens.Token, family: int) {
    Tokens.Live(s, t) && s.tokens[t].family == family
  }

  /** The cookie is usable, except while its successor is on the way. */
  ghost predicate CookieUsable(w: World, family: int) {
    match w.wire
    case Nothing => Ours(w.server, w.cookie, family)
    case Asked(t) => t == w.cookie && Ours(w.server, t, family)
    case Answered(t, answer) =>
      && t == w.cookie
      && (answer.Rotated? || answer == Tokens.Expired || answer == Tokens.StoreFailed)
      && Ours(w.server, if answer.Rotated? then answer.token else w.cookie, family)
  }

  /** The cookie is used up and has no successor. */
  ghost predicate CookieSpent(w: World, family: int) {
    && Tokens.Dead(w.server, family) && w.cookie in w.server.tokens && w.server.tokens[w.cookie].family == family
    && match w.wire
       case Nothing => true
       case Asked(t) => t == w.cookie
       case Answered(t, answer) => t == w.cookie && !answer.Rotated?
  }

  /** A rotation that revokes the presented token and then cannot store its successor. */
  ghost predicate LosesSuccessor(w: World, step: Step) {
    step.DoServe? && step.fault == Tokens.CreateFails && w.wire.Asked?
    && Tokens.Live(w.server, w.wire.token) && step.now <= w.server.tokens[w.wire.token].expires
  }

  predicate Waits(phase: Phase) {
    phase.Waiting? || phase.Replaying?
  }

  /** A request has been sent once for each time it was tried. */
  predicate SendsFit(track: Track) {
    match track.phase
    case Ready(retried) => track.sends == if retried then 1 else 0
    case Waiting(retried) => track.sends == if retried then 1 else 0
    case Granted(retried) => track.sends == if retried then 1 else 0
    case Sent(retried) => track.sends == if retried then 2 else 1
    case Replaying => track.sends == 1
    case Finished(_) => track.sends <= 2
  }

  /** Nobody waits for a refresh that is not under way, and none is under way that nobody waits for. */
  ghost predicate ClientInv(c: Client) {
    && (forall id :: id in c.requests ==> SendsFit(c.requests[id]))
    && (c.inFlight <==> exists id :: id in c.requests && Waits(c.requests[id].phase))
  }

  ghost predicate Inv(w: World, family: int) {
    && Tokens.Inv(w.server) && ClientInv(w.client) && (w.client.inFlight <==> w.wire != Nothing)
    && (CookieUsable(w, family) || CookieSpent(w, family))
  }

  lemma SignedInKeeps(w: World, family: int)
    requires SignedIn(w, family)
    ensures Inv(w, family) && CookieUsable(w, family)
  {
  }

  /** The two are each other's opposite. */
  lemma UsableOrSpent(w: World, family: int)
    ensures CookieUsable(w, family) ==> !Tokens.Dead(w.server, family)
    ensures CookieSpent(w, family) && w.wire.Asked? ==> !Tokens.Live(w.server, w.wire.token)
  {
    hide ClientInv;
    var held := if w.wire.Answered? && w.wire.answer.Rotated? then w.wire.answer.token else w.cookie;
    assert CookieUsable(w, family) ==> Ours(w.server, held, family);
  }

  lemma SetKeeps(c: Client, id: int, phase: Phase, sends: nat)
    requires ClientInv(c) && SendsFit(Track(phase, sends))
    requires id in c.requests ==> !Waits(c.requests[id].phase)
    ensures Waits(phase) ==> ClientInv(RefreshOnce(Set(c, id, phase, sends)))
    ensures !Waits(phase) ==> ClientInv(Set(c, id, phase, sends))
  {
    var after := Set(c, id, phase, sends);
    assert id in after.requests && after.requests[id].phase == phase;
    if c.inFlight {
      var other :| other in c.requests && Waits(c.requests[other].phase);
      assert other in after.requests && Waits(after.requests[other].phase);
    }
    assert forall other :: other in after.requests && other != id ==> after.requests[other] == c.requests[other];
  }

  lemma ProceedKeeps(c: Client, id: int, unexpired: bool)
    requires ClientInv(c)
    ensures ClientInv(Proceed(c, id, unexpired))
    ensures c.inFlight ==> Proceed(c, id, unexpired).inFlight
  {
    if id in c.requests {
      var track := c.requests[id];
      assert SendsFit(track);
      match track.phase
      case Ready(retried) =>
        SetKeeps(c, id, Sent(retried), track.sends + 1);
        SetKeeps(c, id, Waiting(retried), track.sends);
      case Granted(retried) => SetKeeps(c, id, Sent(retried), track.sends + 1);
      case _ =>
    }
  }

  lemma OnResponseKeeps(c: Client, id: int, response: Response)
    requires ClientInv(c)
    ensures ClientInv(OnResponse(c, id, response))
    ensures c.inFlight ==> OnResponse(c, id, response).inFlight
  {
    if id in c.requests && c.requests[id].phase.Sent? {
      var track := c.requests[id];
      assert SendsFit(track);
      SetKeeps(c, id, Finished(response == Success), track.sends);
      SetKeeps(c.(access := false), id, Finished(false), track.sends);
      if !track.phase.retried {
        SetKeeps(c, id, Replaying, track.sends);
      }
    }
  }

  lemma OnRefreshedKeeps(c: Client, how: Settlement)
    requires ClientInv(c)
    ensures ClientInv(OnRefreshed(c, how))
  {
  }

  /** What other sessions do leaves the usable token of this one alone. */
  lemma ForeignKeeps(s: Tokens.Server, t: Tokens.Token, family: int, step: Tokens.Step)
    requires Tokens.Inv(s) && Ours(s, t, family) && Foreign(s, family, step)
    ensures Ours(Tokens.Apply(s, step), t, family)
  {
  }

  lemma ForeignKeepsDead(s: Tokens.Server, t: Tokens.Token, family: int, step: Tokens.Step)
    requires Tokens.Inv(s) && Tokens.Dead(s, family) && t in s.tokens && s.tokens[t].family == family
    ensures var after := Tokens.Apply(s, step);
            Tokens.Dead(after, family) && t in after.tokens && after.tokens[t].family == family
  {
    Tokens.StepKeepsDead(s, step, family);
    Tokens.StepKeeps(s, step);
    hide Tokens.Apply, Tokens.Inv, Tokens.Dead;
  }

  lemma ElsewhereKeeps(w: World, family: int, other: Tokens.Step)
    requires Inv(w, family) && Foreign(w.server, family, other)
    ensures var after := w.(server := Tokens.Apply(w.server, other));
            && Inv(after, family) && (CookieUsable(w, family) ==> CookieUsable(after, family))
            && (CookieSpent(w, family) ==> CookieSpent(after, family))
  {
    hide Tokens.Inv, Tokens.Apply, Tokens.Dead, Ours, Foreign, ClientInv;
    Tokens.StepKeeps(w.server, other);
    if CookieUsable(w, family) {
      var held := if w.wire.Answered? && w.wire.answer.Rotated? then w.wire.answer.token else w.cookie;
      ForeignKeeps(w.server, held, family, other);
    }
    if CookieSpent(w, family) {
      ForeignKeepsDead(w.server, w.cookie, family, other);
    }
  }

  lemma ServeKeeps(w: World, family: int, now: int, ttl: int, fault: Tokens.Fault)
    requires Inv(w, family)
    ensures var after := Apply(w, family, DoServe(now, ttl, fault));
            && Inv(after, family)
            && (CookieUsable(w, family) && !LosesSuccessor(w, DoServe(now, ttl, fault)) ==> CookieUsable(after, family))
            && (CookieUsable(w, family) && LosesSuccessor(w, DoServe(now, ttl, fault)) ==> CookieSpent(after, family))
            && (CookieSpent(w, family) ==> CookieSpent(after, family))
  {
    hide ClientInv;
    if w.wire.Asked? {
      Tokens.StepKeeps(w.server, Tokens.Refresh(w.wire.token, now, ttl, fault));
      if CookieSpent(w, family) {
        ForeignKeepsDead(w.server, w.cookie, family, Tokens.Refresh(w.wire.token, now, ttl, fault));
      }
      ServedToken(w.server, w.wire.token, family, now, ttl, fault);
      hide Tokens.Rotate, Tokens.Inv, Tokens.Dead, Tokens.Live, Ours;
    }
  }

  /** What a rotation does to the family of the presented token, used or not. */
  lemma ServedToken(s: Tokens.Server, t: Tokens.Token, family: int, now: int, ttl: int, fault: Tokens.Fault)
    requires Tokens.Inv(s) && t in s.tokens && s.tokens[t].family == family
    ensures var (after, answer) := Tokens.Rotate(s, t, now, ttl, fault);
            && after == Tokens.Apply(s, Tokens.Refresh(t, now, ttl, fault))
            && t in after.tokens && after.tokens[t].family == family
            && (!Tokens.Live(s, t) ==> !answer.Rotated?)
            && (Tokens.Live(s, t) && fault == Tokens.CreateFails && now <= s.tokens[t].expires ==>
                  Tokens.Dead(after, family) && answer == Tokens.StoreFailed)
            && (Tokens.Live(s, t) && !(fault == Tokens.CreateFails && now <= s.tokens[t].expires) ==>
                  && (answer.Rotated? || answer == Tokens.Expired || answer == Tokens.StoreFailed)
                  && Ours(after, if answer.Rotated? then answer.token else t, family))
  {
    if Tokens.Live(s, t) && fault == Tokens.CreateFails && now <= s.tokens[t].expires {
      var after := Tokens.Rotate(s, t, now, ttl, fault).0;
      assert t in after.tokens && after.tokens[t].family == family;
      forall u | u in after.tokens && after.tokens[u].family == family
        ensures after.tokens[u].revoked
      {
        assert u != t ==> !Tokens.Live(s, u);
      }
    }
  }

  lemma StepKeeps(w: World, family: int, step: Step)
    requires Inv(w, family)
    ensures var after := Apply(w, family, step);
            && Inv(after, family)
            && (CookieUsable(w, family) && !LosesSuccessor(w, step) ==> CookieUsable(after, family))
            && (CookieUsable(w, family) && LosesSuccessor(w, step) ==> CookieSpent(after, family))
            && (CookieSpent(w, family) ==> CookieSpent(after, family))
  {
    hide Tokens.Rotate, Tokens.Inv, Tokens.Apply, Tokens.Dead, Foreign;
    match step
    case DoBegin(id) =>
      if id !in w.client.requests {
        SetKeeps(w.client, id, Ready(false), 0);
      }
    case DoProceed(id, unexpired) => ProceedKeeps(w.client, id, unexpired);
    case DoRespond(id, response) => OnResponseKeeps(w.client, id, response);
    case DoServe(now, ttl, fault) => ServeKeeps(w, family, now, ttl, fault);
    case DoDeliver =>
      if w.wire.Answered? {
        OnRefreshedKeeps(w.client, SettledBy(w.wire.answer));
      }
    case DoElsewhere(other) =>
      if Foreign(w.server, family, other) {
        ElsewhereKeeps(w, family, other);
      }
  }

  /** Some rotation of the run lost its successor. */
  ghost predicate Lost(w: World, family: int, steps: seq<Step>) {
    steps != []
    && (Lost(w, family, steps[..|steps| - 1])
        || LosesSuccessor(Run(w, family, steps[..|steps| - 1]), steps[|steps| - 1]))
  }

  lemma {:induction false} RunKeeps(w: World, family: int, steps: seq<Step>)
    requires Inv(w, family) && CookieUsable(w, family)
    ensures var after := Run(w, family, steps);
            && Inv(after, family) && (!Lost(w, family, steps) ==> CookieUsable(after, family))
            && (Lost(w, family, steps) ==> CookieSpent(after, family))
  {
    hide Inv, Apply, CookieUsable, CookieSpent, LosesSuccessor;
    if steps != [] {
      var before := steps[..|steps| - 1];
      RunKeeps(w, family, before);
      StepKeeps(Run(w, family, before), family, steps[|steps| - 1]);
    }
  }

  // ----- What every run guarantees

  /** However many requests run at once: a refresh of the page presents a usable token, and the session's family is
      alive, if and only if no rotation has lost its successor to a failure of the store. */
  lemma PresentsUsableIff(w: World, family: int, steps: seq<Step>)
    requires SignedIn(w, family)
    ensures var after := Run(w, family, steps);
            && (Tokens.Dead(after.server, family) <==> Lost(w, family, steps))
            && (after.wire.Asked? ==> (Tokens.Live(after.server, after.wire.token) <==> !Lost(w, family, steps)))
  {
    hide Inv, CookieUsable, CookieSpent, Run, Lost, SignedIn;
    SignedInKeeps(w, family);
    RunKeeps(w, family, steps);
    UsableOrSpent(Run(w, family, steps), family);
    SpentIsDead(Run(w, family, steps), family);
  }

  lemma SpentIsDead(w: World, family: int)
    ensures CookieSpent(w, family) ==> Tokens.Dead(w.server, family)
    ensures CookieUsable(w, family) && w.wire.Asked? ==> Tokens.Live(w.server, w.wire.token)
  {
  }

  /** So while the store does not fail in that way, every refresh that reaches the server is granted, finds its token
      expired, or fails without having used the token; none is ever answered as unknown or as reuse. */
  lemma NeverPresentsRevoked(w: World, family: int, steps: seq<Step>, now: int, ttl: int, fault: Tokens.Fault)
    requires SignedIn(w, family) && !Lost(w, family, steps)
    ensures var after := Run(w, family, steps);
            after.wire.Asked? ==>
              var answer := Tokens.Rotate(after.server, after.wire.token, now, ttl, fault).1;
              answer.Rotated? || answer == Tokens.Expired || answer == Tokens.StoreFailed
  {
    PresentsUsableIff(w, family, steps);
    hide Run, Lost, SignedIn;
  }

  /** Every request is replayed at most once. */
  lemma SentAtMostTwice(w: World, family: int, steps: seq<Step>, id: int)
    requires SignedIn(w, family) && id in Run(w, family, steps).client.requests
    ensures Run(w, family, steps).client.requests[id].sends <= 2
  {
    SignedInKeeps(w, family);
    RunKeeps(w, family, steps);
    hide Run, CookieUsable, CookieSpent;
    assert SendsFit(Run(w, family, steps).client.requests[id]);
  }

  /** How far a request is from its end. */
  function Rank(phase: Phase): nat {
    match phase
    case Ready(retried) => if retried then 4 else 9
    case Waiting(retried) => if retried then 3 else 8
    case Granted(retried) => if retried then 2 else 7
    case Sent(retried) => if retried then 1 else 6
    case Replaying => 5
    case Finished(_) => 0
  }

  /** The step moves the request itself: it is its turn, its answer, or the refresh it waits for. */
  predicate Moves(w: World, step: Step, id: int)
    requires id in w.client.requests
  {
    var phase := w.client.requests[id].phase;
    match step
    case DoProceed(other, _) => other == id && (phase.Ready? || phase.Granted?)
    case DoRespond(other, _) => other == id && phase.Sent?
    case DoDeliver => w.wire.Answered? && Waits(phase)
    case _ => false
  }

  /** No request is forgotten or moves backwards: a step that concerns it brings it nearer to its end, any
      other step leaves it where it is. */
  lemma RequestsAdvance(w: World, family: int, step: Step, id: int)
    requires id in w.client.requests
    ensures var after := Apply(w, family, step).client;
            && id in after.requests
            && (Moves(w, step, id) ==> Rank(after.requests[id].phase) < Rank(w.client.requests[id].phase))
            && (!Moves(w, step, id) ==> after.requests[id] == w.client.requests[id])
  {
  }

  /** How requests end: with success exactly on a successful answer, with failure exactly on another failure, on a 401 to the
      replay, or when the refresh they wait for is not granted. */
  lemma EndsExactly(w: World, family: int, step: Step, id: int)
    requires id in w.client.requests && !w.client.requests[id].phase.Finished?
    ensures id in Apply(w, family, step).client.requests
    ensures var was, phase := w.client.requests[id].phase, Apply(w, family, step).client.requests[id].phase;
            && (phase == Finished(true) <==> was.Sent? && step == DoRespond(id, Success))
            && (phase == Finished(false)
                <==> (was.Sent? && step == DoRespond(id, OtherFailure))
                     || (was == Sent(true) && step == DoRespond(id, Unauthorized))
                     || ((was.Waiting? || was.Replaying?) && step == DoDeliver
                         && w.wire.Answered? && !w.wire.answer.Rotated?))
  {
  }

  /** A granted refresh lets a waiting request go out with the token and a request answered by a first 401 start its replay; a
      request counts as sent once more exactly when it goes out. */
  lemma ResumesExactly(w: World, family: int, step: Step, id: int)
    requires id in w.client.requests
    ensures id in Apply(w, family, step).client.requests
    ensures var was, now := w.client.requests[id], Apply(w, family, step).client.requests[id];
            var granted := step == DoDeliver && w.wire.Answered? && w.wire.answer.Rotated?;
            && (granted && was.phase.Waiting? ==> now.phase == Granted(was.phase.retried))
            && (granted && was.phase.Replaying? ==> now.phase == Ready(true))
            && (now.sends == was.sends + if now.phase.Sent? && !was.phase.Sent? then 1 else 0)
            && (now.phase.Sent? && !was.phase.Sent? ==>
                  step.DoProceed? && step.id == id
                  && (was.phase == Granted(now.phase.retried)
                      || (was.phase == Ready(now.phase.retried) && w.client.access && step.unexpired)))
  {
  }

  /** What a step does to the session in the browser: an access token appears exactly with a granted refresh, and goes exactly
      with a refresh that is refused or a 401 to a replay; the cookie changes exactly with a granted refresh, to the token
      that it brings. */
  lemma SessionExactly(w: World, family: int, step: Step)
    ensures var after := Apply(w, family, step);
            var delivered := step == DoDeliver && w.wire.Answered?;
            && (if delivered && w.wire.answer.Rotated? then after.client.access
                else if delivered && w.wire.answer in {Tokens.Unknown, Tokens.Reused, Tokens.Expired} then !after.client.access
                else if step.DoRespond? && step.response == Unauthorized && step.id in w.client.requests
                        && w.client.requests[step.id].phase == Sent(true) then !after.client.access
                else after.client.access == w.client.access)
            && after.cookie == (if delivered && w.wire.answer.Rotated? then w.wire.answer.token else w.cookie)
  {
  }

  /** What a step does to the refresh: one goes out, with the cookie, exactly when none is under way and a request is about to
      be sent without a good access token or has been answered by a first 401. */
  lemma RefreshExactly(w: World, family: int, step: Step)
    requires w.client.inFlight <==> w.wire != Nothing
    ensures var after := Apply(w, family, step);
            var needed :=
              || (step.DoProceed? && step.id in w.client.requests && w.client.requests[step.id].phase.Ready?
                  && !(w.client.access && step.unexpired))
              || (step.DoRespond? && step.response == Unauthorized && step.id in w.client.requests
                  && w.client.requests[step.id].phase == Sent(false));
            && (w.wire == Nothing ==> after.wire == if needed then Asked(w.cookie) else Nothing)
            && (w.wire.Asked? && !step.DoServe? ==> after.wire == w.wire)
            && (w.wire.Answered? ==> after.wire == if step == DoDeliver then Nothing else w.wire)
            && (after.client.inFlight <==> after.wire != Nothing)
  {
  }

  // ----- The queue as it runs

  class Page {
    var access: bool
    var inFlight: bool
    var requests: map<int, Track>

    ghost function State(): Client
      reads this
    {
      Client(access, inFlight, requests)
    }

    method StartRefresh() returns (started: bool)
      modifies this`inFlight
      ensures State() == RefreshOnce(old(State())) && started == !old(inFlight)
    {
      started := !inFlight;
      inFlight := true;
    }

    method Move(id: int, phase: Phase, sends: nat)
      modifies this`requests
      ensures State() == Set(old(State()), id, phase, sends)
    {
      requests := requests[id := Track(phase, sends)];
    }

    method ReportSessionExpired()
      modifies this`access
      ensures !access
    {
      access := false;
    }

    /** Sends the request or queues it; tells whether a refresh goes out now. */
    method Send(id: int, unexpired: bool) returns (refresh: bool)
      requires id in requests
      modifies this
      ensures State() == Proceed(old(State()), id, unexpired)
      ensures refresh <==> inFlight && !old(inFlight)
    {
      refresh := false;
      var track := requests[id];
      match track.phase
      case Ready(retried) =>
        if access && unexpired {
          Move(id, Sent(retried), track.sends + 1);
        } else {
          Move(id, Waiting(retried), track.sends);
          refresh := StartRefresh();
        }
      case Granted(retried) => Move(id, Sent(retried), track.sends + 1);
      case _ =>
    }

    /** Handles the answer to a request; tells whether a refresh goes out now. */
    method Receive(id: int, response: Response) returns (refresh: bool)
      requires id in requests
      modifies this
      ensures State() == OnResponse(old(State()), id, response)
      ensures refresh <==> inFlight && !old(inFlight)
    {
      refresh := false;
      var track := requests[id];
      if !track.phase.Sent? {
        return;
      }
      if response != Unauthorized {
        Move(id, Finished(response == Success), track.sends);
      } else if track.phase.retried {
        ReportSessionExpired();
        Move(id, Finished(false), track.sends);
      } else {
        Move(id, Replaying, track.sends);
        refresh := StartRefresh();
      }
    }

    /** The refresh settles: the queue is cleared before any waiting request resumes. */
    method RefreshSettles(how: Settlement)
      modifies this
      ensures State() == OnRefreshed(old(State()), how)
    {
      inFlight := false;
      if how == Granting {
        access := true;
      } else if how == SigningOut {
        ReportSessionExpired();
      }
      requests := map id | id in requests :: Track(Settle(requests[id].phase, how == Granting), requests[id].sends);
    }
  }
}
