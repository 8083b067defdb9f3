/** Refresh-token calls that overlap. A rotation reads the token, saves it as revoked and creates its successor in
    three separate statements, without a transaction or a lock; a logout reads and then revokes
    (backend/internal/auth/token.go). Any number of calls may be under way at once. */
module TokenRace {
  import opened Tokens

  /** How far a call has come: it found a usable token, it has saved that token as revoked and will create the
      successor, or it is about to revoke a family. */
  datatype Call = Found(raw: Token) | Saved(family: int, user: int) | Revoking(family: int)

  datatype World = World(server: Server, calls: map<int, Call>)

  datatype Statement =
    | Begin(user: int, expires: int)
    | Find(id: int, raw: Token, now: int)
    | FindForLogout(id: int, raw: Token)
    | Save(id: int, fails: bool)
    | Create(id: int, expires: int, fails: bool)
    | RevokeAll(id: int, fails: bool)

  function Ended(w: World, id: int): World {
    w.(calls := w.calls - {id})
  }

  /** Reads the token; unknown and expired tokens are answered at once, a used one leads to its family's end. */
  function OnFind(w: World, id: int, raw: Token, now: int): World {
    if raw !in w.server.tokens then w
    else
      var rec := w.server.tokens[raw];
      if rec.revoked then w.(calls := w.calls[id := Revoking(rec.family)])
      else if now > rec.expires then w
      else w.(calls := w.calls[id := Found(raw)])
  }

  function Execute(w: World, st: Statement): World {
    match st
    case Begin(user, expires) => w.(server := Issue(w.server, user, expires))
    case Find(id, raw, now) => if id in w.calls then w else OnFind(w, id, raw, now)
    case FindForLogout(id, raw) =>
      if id in w.calls || raw !in w.server.tokens then w
      else w.(calls := w.calls[id := Revoking(w.server.tokens[raw].family)])
    case Save(id, fails) =>
      if id !in w.calls || !w.calls[id].Found? || w.calls[id].raw !in w.server.tokens then w
      else if fails then Ended(w, id)
      else
        var raw := w.calls[id].raw;
        var rec := w.server.tokens[raw];
        World(w.server.(tokens := w.server.tokens[raw := rec.(revoked := true)]),
              w.calls[id := Saved(rec.family, rec.user)])
    case Create(id, expires, fails) =>
      if id !in w.calls || !w.calls[id].Saved? then w
      else if fails then Ended(w, id)
      else
        var call := w.calls[id];
        var token := RefreshToken(call.user, call.family, expires, false);
        Ended(w.(server := Server(w.server.tokens[w.server.next := token], w.server.next + 1)), id)
    case RevokeAll(id, fails) =>
      if id !in w.calls || !w.calls[id].Revoking? then w
      else if fails then Ended(w, id)
      else Ended(w.(server := RevokeFamily(w.server, w.calls[id].family)), id)
  }

  function ExecuteAll(w: World, sts: seq<Statement>): World {
    if sts == [] then w else Execute(ExecuteAll(w, sts[..|sts| - 1]), sts[|sts| - 1])
  }

  const QUIET := World(NO_TOKENS, map[])

  /** Fresh values are fresh, and calls concern tokens and families that exist. */
  ghost predicate Sane(w: World) {
    && (forall t :: t in w.server.tokens ==> t < w.server.next && w.server.tokens[t].family < w.server.next)
    && (forall id :: id in w.calls ==> Fits(w.server, w.calls[id]))
  }

  predicate Fits(s: Server, call: Call) {
    match call
    case Found(raw) => raw in s.tokens
    case Saved(family, _) => family < s.next
    case Revoking(family) => family < s.next
  }

  lemma StaysSane(w: World, st: Statement)
    requires Sane(w)
    ensures Sane(Execute(w, st)) && Execute(w, st).server.next >= w.server.next
    ensures forall t :: t in w.server.tokens && w.server.tokens[t].revoked ==>
              t in Execute(w, st).server.tokens && Execute(w, st).server.tokens[t].revoked
  {
  }

  lemma {:induction false} AlwaysSane(w: World, sts: seq<Statement>)
    requires Sane(w)
    ensures Sane(ExecuteAll(w, sts)) && ExecuteAll(w, sts).server.next >= w.server.next
  {
    if sts != [] {
      AlwaysSane(w, sts[..|sts| - 1]);
      StaysSane(ExecuteAll(w, sts[..|sts| - 1]), sts[|sts| - 1]);
      hide Sane, Execute;
    }
  }

  // ----- A call on its own is the whole operation

  /** The statements of one rotation, failing where the store does. */
  function Alone(id: int, raw: Token, now: int, ttl: int, fault: Fault): seq<Statement> {
    [Find(id, raw, now), Save(id, fault == RevokeFails), Create(id, now + ttl, fault == CreateFails),
     RevokeAll(id, fault == RevokeFails)]
  }

  lemma AloneIsRotate(w: World, id: int, raw: Token, now: int, ttl: int, fault: Fault)
    requires Sane(w) && id !in w.calls
    ensures ExecuteAll(w, Alone(id, raw, now, ttl, fault)) == w.(server := Rotate(w.server, raw, now, ttl, fault).0)
  {
    hide ExecuteAll, RevokeFamily, Sane;
    var revokeFails, createFails := fault == RevokeFails, fault == CreateFails;
    Four(w, Find(id, raw, now), Save(id, revokeFails), Create(id, now + ttl, createFails), RevokeAll(id, revokeFails));
    var found := Execute(w, Find(id, raw, now));
    if raw in w.server.tokens {
      var rec := w.server.tokens[raw];
      CallEnds(w.calls, id, Found(raw));
      CallEnds(w.calls, id, Revoking(rec.family));
      CallEnds(w.calls, id, Saved(rec.family, rec.user));
      if !rec.revoked && now <= rec.expires {
        assert found == w.(calls := w.calls[id := Found(raw)]);
        var saved := Execute(found, Save(id, revokeFails));
        assert saved.calls == if revokeFails then w.calls else w.calls[id := Saved(rec.family, rec.user)];
        var created := Execute(saved, Create(id, now + ttl, createFails));
        assert created.calls == w.calls;
      }
    }
  }

  lemma CallEnds(calls: map<int, Call>, id: int, call: Call)
    requires id !in calls
    ensures calls[id := call] - {id} == calls
  {
  }

  lemma AloneIsLogout(w: World, id: int, raw: Token)
    requires id !in w.calls
    ensures ExecuteAll(w, [FindForLogout(id, raw), RevokeAll(id, false)])
         == w.(server := RevokeFamilyByToken(w.server, raw))
  {
    var find, revoke := FindForLogout(id, raw), RevokeAll(id, false);
    Two(w, find, revoke);
    hide RevokeFamily, ExecuteAll;
    if raw in w.server.tokens {
      CallEnds(w.calls, id, Revoking(w.server.tokens[raw].family));
    }
  }

  lemma ExecuteNext(w: World, sts: seq<Statement>, st: Statement)
    ensures ExecuteAll(w, sts + [st]) == Execute(ExecuteAll(w, sts), st)
  {
    assert (sts + [st])[..|sts|] == sts;
  }

  lemma Two(w: World, a: Statement, b: Statement)
    ensures ExecuteAll(w, [a, b]) == Execute(Execute(w, a), b)
  {
    ExecuteNext(w, [], a);
    ExecuteNext(w, [a], b);
    assert [] + [a] == [a] && [a] + [b] == [a, b];
    hide Execute;
  }

  lemma Four(w: World, a: Statement, b: Statement, c: Statement, d: Statement)
    ensures ExecuteAll(w, [a, b, c, d]) == Execute(Execute(Execute(Execute(w, a), b), c), d)
  {
    Two(w, a, b);
    ExecuteNext(w, [a, b], c);
    ExecuteNext(w, [a, b, c], d);
    assert [a, b] + [c] == [a, b, c] && [a, b, c] + [d] == [a, b, c, d];
    hide Execute, ExecuteAll;
  }

  // ----- Usable tokens, and those about to be created

  ghost function Usable(w: World, family: int): set<Token> {
    set t | t in w.server.tokens && Live(w.server, t) && w.server.tokens[t].family == family
  }

  /** The rotations of the family that have revoked their token and have not created its successor. */
  ghost function Promised(w: World, family: int): set<int> {
    set id | id in w.calls && w.calls[id].Saved? && w.calls[id].family == family
  }

  ghost function Stake(w: World, family: int): nat {
    |Usable(w, family)| + |Promised(w, family)|
  }

  /** The save of a rotation whose token was revoked since it was read. */
  ghost predicate StaleSave(w: World, st: Statement, family: int) {
    && st.Save? && !st.fails && st.id in w.calls && w.calls[st.id].Found?
    && var raw := w.calls[st.id].raw;
       raw in w.server.tokens && w.server.tokens[raw].family == family && w.server.tokens[raw].revoked
  }

  /** By how much a statement changes what is usable or promised. */
  ghost function Gain(w: World, st: Statement, family: int): int {
    match st
    case Begin(_, _) => if family == w.server.next then 1 else 0
    case Save(_, _) => if StaleSave(w, st, family) then 1 else 0
    case Create(id, _, fails) => if fails && id in Promised(w, family) then -1 else 0
    case RevokeAll(id, fails) =>
      if !fails && id in w.calls && w.calls[id] == Revoking(family) then -|Usable(w, family)| else 0
    case _ => 0
  }

  lemma SaveStake(w: World, id: int, fails: bool, family: int)
    requires Sane(w)
    ensures Stake(Execute(w, Save(id, fails)), family) == Stake(w, family) + Gain(w, Save(id, fails), family)
  {
    var after := Execute(w, Save(id, fails));
    if id in w.calls && w.calls[id].Found? {
      var raw := w.calls[id].raw;
      assert Fits(w.server, w.calls[id]);
      hide Sane;
      if fails {
        assert Usable(after, family) == Usable(w, family) && Promised(after, family) == Promised(w, family);
      } else {
        SavedUsable(w, id, family);
        SavedPromised(w, id, family);
        hide Usable, Promised, Execute;
      }
    }
  }

  lemma SavedUsable(w: World, id: int, family: int)
    requires id in w.calls && w.calls[id].Found? && w.calls[id].raw in w.server.tokens
    ensures Usable(Execute(w, Save(id, false)), family) == Usable(w, family) - {w.calls[id].raw}
    ensures w.calls[id].raw in Usable(w, family)
            <==> w.server.tokens[w.calls[id].raw].family == family && !w.server.tokens[w.calls[id].raw].revoked
  {
  }

  lemma SavedPromised(w: World, id: int, family: int)
    requires id in w.calls && w.calls[id].Found? && w.calls[id].raw in w.server.tokens
    ensures id !in Promised(w, family)
    ensures Promised(Execute(w, Save(id, false)), family)
         == if w.server.tokens[w.calls[id].raw].family == family then Promised(w, family) + {id} else Promised(w, family)
  {
  }

  lemma CreateStake(w: World, id: int, expires: int, fails: bool, family: int)
    requires Sane(w)
    ensures Stake(Execute(w, Create(id, expires, fails)), family)
         == Stake(w, family) + Gain(w, Create(id, expires, fails), family)
  {
    if id in w.calls && w.calls[id].Saved? {
      CreatedPromised(w, id, expires, fails, family);
      CreatedUsable(w, id, expires, fails, family);
      hide Usable, Promised, Execute, Sane;
    }
  }

  lemma CreatedPromised(w: World, id: int, expires: int, fails: bool, family: int)
    requires id in w.calls && w.calls[id].Saved?
    ensures id in Promised(w, family) <==> w.calls[id].family == family
    ensures Promised(Execute(w, Create(id, expires, fails)), family) == Promised(w, family) - {id}
  {
  }

  lemma CreatedUsable(w: World, id: int, expires: int, fails: bool, family: int)
    requires Sane(w) && id in w.calls && w.calls[id].Saved?
    ensures w.server.next !in Usable(w, family)
    ensures Usable(Execute(w, Create(id, expires, fails)), family)
         == if !fails && w.calls[id].family == family then Usable(w, family) + {w.server.next} else Usable(w, family)
  {
  }

  lemma RevokeStake(w: World, id: int, fails: bool, family: int)
    requires Sane(w)
    ensures Stake(Execute(w, RevokeAll(id, fails)), family) == Stake(w, family) + Gain(w, RevokeAll(id, fails), family)
  {
    var after := Execute(w, RevokeAll(id, fails));
    if id in w.calls && w.calls[id].Revoking? {
      assert Promised(after, family) == Promised(w, family);
      assert Usable(after, family) == if !fails && w.calls[id].family == family then {} else Usable(w, family);
    }
  }

  lemma OtherStake(w: World, st: Statement, family: int)
    requires Sane(w) && (st.Begin? || st.Find? || st.FindForLogout?)
    ensures Stake(Execute(w, st), family) == Stake(w, family) + Gain(w, st, family)
  {
    var after := Execute(w, st);
    assert Promised(after, family) == Promised(w, family);
    BegunUsable(w, st, family);
    hide Usable, Promised, Execute, Sane;
  }

  lemma BegunUsable(w: World, st: Statement, family: int)
    requires Sane(w) && (st.Begin? || st.Find? || st.FindForLogout?)
    ensures w.server.next !in Usable(w, family)
    ensures Usable(Execute(w, st), family)
         == if st.Begin? && family == w.server.next then Usable(w, family) + {w.server.next} else Usable(w, family)
  {
  }

  /** The stake of a family after a statement is the stake before it plus the gain. */
  lemma StakeExact(w: World, st: Statement, family: int)
    requires Sane(w)
    ensures Stake(Execute(w, st), family) == Stake(w, family) + Gain(w, st, family)
  {
    hide Sane, Execute, Stake, Gain;
    match st
    case Save(id, fails) => SaveStake(w, id, fails, family);
    case Create(id, expires, fails) => CreateStake(w, id, expires, fails, family);
    case RevokeAll(id, fails) => RevokeStake(w, id, fails, family);
    case _ => OtherStake(w, st, family);
  }

  // ----- At most one usable token: exactly when

  /** Nothing is known of a family before it begins. */
  lemma NoStakeYet(w: World)
    requires Sane(w)
    ensures Stake(w, w.server.next) == 0
  {
    forall id | id in w.calls
      ensures id !in Promised(w, w.server.next)
    {
      assert Fits(w.server, w.calls[id]);
    }
    assert Usable(w, w.server.next) == {} && Promised(w, w.server.next) == {};
  }

  /** A stale save in a family that still has a usable or a promised token. */
  ghost predicate Overcommits(w: World, st: Statement, family: int) {
    StaleSave(w, st, family) && Stake(w, family) >= 1
  }

  lemma AtMostOneStep(w: World, st: Statement, family: int)
    requires Sane(w) && Stake(w, family) <= 1
    ensures Stake(Execute(w, st), family) <= 1 <==> !Overcommits(w, st, family)
  {
    StakeExact(w, st, family);
    NoStakeYet(w);
    hide Sane, Execute, StaleSave, Usable, Promised;
  }

  ghost predicate AlwaysAtMostOne(sts: seq<Statement>, family: int) {
    Stake(ExecuteAll(QUIET, sts), family) <= 1 && (sts == [] || AlwaysAtMostOne(sts[..|sts| - 1], family))
  }

  ghost predicate NeverOvercommits(sts: seq<Statement>, family: int) {
    sts == []
    || (NeverOvercommits(sts[..|sts| - 1], family)
        && !Overcommits(ExecuteAll(QUIET, sts[..|sts| - 1]), sts[|sts| - 1], family))
  }

  /** For every run of overlapping calls: a family has at most one token usable or promised throughout if and only
      if no rotation saves a token that was revoked since its reading while another is usable or promised. */
  lemma {:induction false} AtMostOneIff(sts: seq<Statement>, family: int)
    ensures AlwaysAtMostOne(sts, family) <==> NeverOvercommits(sts, family)
  {
    if sts == [] {
      assert Usable(QUIET, family) == {} && Promised(QUIET, family) == {};
    } else {
      var before := sts[..|sts| - 1];
      AtMostOneIff(before, family);
      AlwaysSane(QUIET, before);
      hide Sane, Execute, Stake, Overcommits;
      if AlwaysAtMostOne(before, family) {
        AtMostOneStep(ExecuteAll(QUIET, before), sts[|sts| - 1], family);
      }
    }
  }

  /** So without such a save no two tokens of a family are ever usable at once. */
  lemma AtMostOneUsable(sts: seq<Statement>, s: Token, t: Token)
    requires Live(ExecuteAll(QUIET, sts).server, s) && Live(ExecuteAll(QUIET, sts).server, t) && s != t
    requires ExecuteAll(QUIET, sts).server.tokens[s].family == ExecuteAll(QUIET, sts).server.tokens[t].family
    ensures !NeverOvercommits(sts, ExecuteAll(QUIET, sts).server.tokens[s].family)
  {
    var w := ExecuteAll(QUIET, sts);
    var family := w.server.tokens[s].family;
    AtMostOneIff(sts, family);
    assert {s, t} <= Usable(w, family);
    SubsetSize({s, t}, Usable(w, family));
    hide ExecuteAll, Promised;
  }

  lemma SubsetSize<T>(a: set<T>, b: set<T>)
    requires a <= b
    ensures |a| <= |b|
  {
    assert b == a + (b - a);
  }

  /** And what is promised can become usable: letting the promised rotations create their successors makes as many
      tokens usable as the stake says. */
  lemma {:induction false} StakeBecomesUsable(w: World, family: int, expires: int) returns (sts: seq<Statement>)
    requires Sane(w)
    ensures forall i :: 0 <= i < |sts| ==> sts[i].Create? && !sts[i].fails
    ensures |Usable(ExecuteAll(w, sts), family)| == Stake(w, family)
    decreases |Promised(w, family)|
  {
    if Promised(w, family) == {} {
      sts := [];
    } else {
      assert exists id: int :: id in Promised(w, family) by {
        assert (forall id: int :: id !in Promised(w, family)) ==> Promised(w, family) == {};
      }
      var id :| id in Promised(w, family);
      var create := Create(id, expires, false);
      var next := Execute(w, create);
      CreateStake(w, id, expires, false, family);
      assert Promised(next, family) == Promised(w, family) - {id};
      StaysSane(w, create);
      var rest := StakeBecomesUsable(next, family, expires);
      sts := [create] + rest;
      ExecuteFirst(w, create, rest);
      hide Usable, Promised, Execute;
    }
  }

  lemma {:induction false} ExecuteFirst(w: World, first: Statement, rest: seq<Statement>)
    ensures ExecuteAll(w, [first] + rest) == ExecuteAll(Execute(w, first), rest)
  {
    var sts := [first] + rest;
    hide Execute;
    if rest == [] {
      assert sts[..0] == [] && sts == [first];
    } else {
      assert sts[..|sts| - 1] == [first] + rest[..|rest| - 1];
      ExecuteFirst(w, first, rest[..|rest| - 1]);
    }
  }

  // ----- Revoked for good: exactly when

  ghost predicate AlwaysEnded(w: World, sts: seq<Statement>, family: int) {
    Stake(ExecuteAll(w, sts), family) == 0 && (sts == [] || AlwaysEnded(w, sts[..|sts| - 1], family))
  }

  ghost predicate NeverStale(w: World, sts: seq<Statement>, family: int) {
    sts == []
    || (NeverStale(w, sts[..|sts| - 1], family) && !StaleSave(ExecuteAll(w, sts[..|sts| - 1]), sts[|sts| - 1], family))
  }

  /** For every run: a family with nothing usable and nothing promised stays so if and only if no rotation saves a
      token that was revoked since its reading. */
  lemma {:induction false} EndedForeverIff(w: World, sts: seq<Statement>, family: int)
    requires Sane(w) && family < w.server.next && Stake(w, family) == 0
    ensures AlwaysEnded(w, sts, family) <==> NeverStale(w, sts, family)
  {
    if sts != [] {
      var before := sts[..|sts| - 1];
      EndedForeverIff(w, before, family);
      AlwaysSane(w, before);
      hide Sane, Execute, Stake, StaleSave;
      if AlwaysEnded(w, before, family) {
        EndedStep(ExecuteAll(w, before), sts[|sts| - 1], family);
      }
    }
  }

  lemma EndedStep(w: World, st: Statement, family: int)
    requires Sane(w) && family < w.server.next && Stake(w, family) == 0
    ensures Stake(Execute(w, st), family) == 0 <==> !StaleSave(w, st, family)
  {
    StakeExact(w, st, family);
    assert Usable(w, family) == {} && Promised(w, family) == {};
    hide Sane, Execute, StaleSave, Usable, Promised;
  }

  /** Right after its revocation a family has no usable token; it has nothing to come either, and so is ended, if
      and only if no rotation of it has saved and not yet created. */
  lemma RevokedEndsIff(w: World, id: int, family: int)
    requires Sane(w) && id in w.calls && w.calls[id] == Revoking(family)
    ensures var after := Execute(w, RevokeAll(id, false));
            Usable(after, family) == {} && (Stake(after, family) == 0 <==> Promised(w, family) == {})
  {
    var after := Execute(w, RevokeAll(id, false));
    assert Promised(after, family) == Promised(w, family);
    assert Usable(after, family) == {};
  }

  /** A token is saved at most once without a stale save: once it is revoked, every later save of it is stale. */
  lemma {:induction false} SavedAgainIsStale(w: World, raw: Token, sts: seq<Statement>, id: int)
    requires Sane(w) && raw in w.server.tokens && w.server.tokens[raw].revoked
    ensures var after := ExecuteAll(w, sts);
            && raw in after.server.tokens
            && (id in after.calls && after.calls[id] == Found(raw) ==>
                  StaleSave(after, Save(id, false), after.server.tokens[raw].family))
  {
    RevokedRemains(w, raw, sts);
    hide ExecuteAll;
  }

  lemma {:induction false} RevokedRemains(w: World, raw: Token, sts: seq<Statement>)
    requires Sane(w) && raw in w.server.tokens && w.server.tokens[raw].revoked
    ensures raw in ExecuteAll(w, sts).server.tokens && ExecuteAll(w, sts).server.tokens[raw].revoked
  {
    if sts != [] {
      RevokedRemains(w, raw, sts[..|sts| - 1]);
      AlwaysSane(w, sts[..|sts| - 1]);
      StaysSane(ExecuteAll(w, sts[..|sts| - 1]), sts[|sts| - 1]);
      hide Sane, Execute;
    }
  }

  // ----- Runs in which the promise fails

  lemma Six(w: World, a: Statement, b: Statement, c: Statement, d: Statement, e: Statement, f: Statement)
    ensures ExecuteAll(w, [a, b, c, d, e, f]) == Execute(Execute(Execute(Execute(Execute(Execute(w, a), b), c), d), e), f)
  {
    Four(w, a, b, c, d);
    ExecuteNext(w, [a, b, c, d], e);
    ExecuteNext(w, [a, b, c, d, e], f);
    assert [a, b, c, d] + [e] == [a, b, c, d, e] && [a, b, c, d, e] + [f] == [a, b, c, d, e, f];
    hide Execute, ExecuteAll;
  }

  /** Two presentations of one token that both read before either saves: both are answered with a successor, and
      both successors are usable. */
  lemma ExchangedTwice(w: World, raw: Token, now: int, expires: int)
    requires Live(w.server, raw) && now <= w.server.tokens[raw].expires && w.calls == map[]
    ensures var after := ExecuteAll(w, [Find(1, raw, now), Find(2, raw, now), Save(1, false), Save(2, false),
                                        Create(1, expires, false), Create(2, expires, false)]);
            {w.server.next, w.server.next + 1} <= Usable(after, w.server.tokens[raw].family)
  {
    Six(w, Find(1, raw, now), Find(2, raw, now), Save(1, false), Save(2, false),
        Create(1, expires, false), Create(2, expires, false));
    BothSave(w, raw, now);
    var saved := Execute(Execute(Execute(Execute(w, Find(1, raw, now)), Find(2, raw, now)), Save(1, false)), Save(2, false));
    BothCreate(saved, w.server.tokens[raw].family, w.server.tokens[raw].user, expires);
    hide Execute, ExecuteAll, Usable;
  }

  lemma BothCreate(saved: World, family: int, user: int, expires: int)
    requires saved.calls == map[1 := Saved(family, user), 2 := Saved(family, user)]
    ensures var after := Execute(Execute(saved, Create(1, expires, false)), Create(2, expires, false));
            {saved.server.next, saved.server.next + 1} <= Usable(after, family)
  {
    assert Execute(saved, Create(1, expires, false)).calls == map[2 := Saved(family, user)];
  }

  lemma BothSave(w: World, raw: Token, now: int)
    requires Live(w.server, raw) && now <= w.server.tokens[raw].expires && w.calls == map[]
    ensures var rec := w.server.tokens[raw];
            var saved := Execute(Execute(Execute(Execute(w, Find(1, raw, now)), Find(2, raw, now)), Save(1, false)), Save(2, false));
            && saved.calls == map[1 := Saved(rec.family, rec.user), 2 := Saved(rec.family, rec.user)]
            && saved.server.next == w.server.next
  {
    var rec := w.server.tokens[raw];
    var read := Execute(Execute(w, Find(1, raw, now)), Find(2, raw, now));
    assert read == w.(calls := map[1 := Found(raw), 2 := Found(raw)]);
    var one := Execute(read, Save(1, false));
    assert one.calls == map[1 := Saved(rec.family, rec.user), 2 := Found(raw)];
  }

  /** A logout between the save and the create of a rotation: the family is revoked and then usable again. */
  lemma RevokedComesBack(w: World, raw: Token, now: int, expires: int)
    requires Live(w.server, raw) && now <= w.server.tokens[raw].expires && w.calls == map[]
    ensures var family := w.server.tokens[raw].family;
            var revoked := ExecuteAll(w, [Find(1, raw, now), Save(1, false), FindForLogout(2, raw), RevokeAll(2, false)]);
            var after := Execute(revoked, Create(1, expires, false));
            Dead(revoked.server, family) && Live(after.server, w.server.next)
            && after.server.tokens[w.server.next].family == family
  {
    Four(w, Find(1, raw, now), Save(1, false), FindForLogout(2, raw), RevokeAll(2, false));
    hide ExecuteAll;
    var rec := w.server.tokens[raw];
    var saved := Execute(Execute(w, Find(1, raw, now)), Save(1, false));
    var asked := Execute(saved, FindForLogout(2, raw));
    assert asked.calls == map[1 := Saved(rec.family, rec.user), 2 := Revoking(rec.family)];
    var revoked := Execute(asked, RevokeAll(2, false));
    assert raw in revoked.server.tokens && revoked.server.tokens[raw].family == rec.family;
    assert 1 in revoked.calls && revoked.calls[1] == Saved(rec.family, rec.user);
  }
}
