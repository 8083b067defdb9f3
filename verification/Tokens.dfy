/** Rotating refresh tokens on the server (backend/internal/auth/token.go). A token value stands for its
    hash; fresh random values are drawn from a counter. */
module Tokens {

  type Token = int

  datatype RefreshToken = RefreshToken(user: int, family: int, expires: int, revoked: bool)

  /** The refresh_tokens table; `next` is above every token and family in use. */
  datatype Server = Server(tokens: map<Token, RefreshToken>, next: int)

  datatype Rotation = Rotated(token: Token, user: int) | Unknown | Reused | Expired | StoreFailed

  /** Where the store fails during a rotation, if it does. */
  datatype Fault = NoFault | RevokeFails | CreateFails

  predicate Live(s: Server, t: Token) {
    t in s.tokens && !s.tokens[t].revoked
  }

  // ----- The operations

  function Issue(s: Server, user: int, expires: int): Server {
    Server(s.tokens[s.next := RefreshToken(user, s.next, expires, false)], s.next + 1)
  }

  function RevokeFamily(s: Server, family: int): Server {
    s.(tokens := map t | t in s.tokens ::
      if s.tokens[t].family == family then s.tokens[t].(revoked := true) else s.tokens[t])
  }

  function Rotate(s: Server, raw: Token, now: int, ttl: int, fault: Fault): (Server, Rotation) {
    if raw !in s.tokens then (s, Unknown)
    else
      var rec := s.tokens[raw];
      if rec.revoked then
        if fault == RevokeFails then (s, StoreFailed) else (RevokeFamily(s, rec.family), Reused)
      else if now > rec.expires then (s, Expired)
      else if fault == RevokeFails then (s, StoreFailed)
      else
        var used := s.tokens[raw := rec.(revoked := true)];
        if fault == CreateFails then (s.(tokens := used), StoreFailed)
        else
          (Server(used[s.next := RefreshToken(rec.user, rec.family, now + ttl, false)], s.next + 1),
           Rotated(s.next, rec.user))
  }

  function RevokeFamilyByToken(s: Server, raw: Token): Server {
    if raw in s.tokens then RevokeFamily(s, s.tokens[raw].family) else s
  }

  // ----- Runs

  datatype Step =
    | Login(user: int, expires: int)
    | Refresh(raw: Token, now: int, ttl: int, fault: Fault)
    | Logout(raw: Token)

  function Apply(s: Server, step: Step): Server {
    match step
    case Login(user, expires) => Issue(s, user, expires)
    case Refresh(raw, now, ttl, fault) => Rotate(s, raw, now, ttl, fault).0
    case Logout(raw) => RevokeFamilyByToken(s, raw)
  }

  function Run(s: Server, steps: seq<Step>): Server {
    if steps == [] then s else Apply(Run(s, steps[..|steps| - 1]), steps[|steps| - 1])
  }

  const NO_TOKENS := Server(map[], 0)

  /** Fresh values are fresh, and no family has two tokens that are not revoked. */
  ghost predicate Inv(s: Server) {
    && (forall t :: t in s.tokens ==> t < s.next && s.tokens[t].family < s.next)
    && (forall a, b :: Live(s, a) && Live(s, b) && s.tokens[a].family == s.tokens[b].family ==> a == b)
  }

  ghost predicate Known(s: Server, family: int) {
    exists t :: t in s.tokens && s.tokens[t].family == family
  }

  /** The family exists and has no usable token left. */
  ghost predicate Dead(s: Server, family: int) {
    Known(s, family) && forall t :: t in s.tokens && s.tokens[t].family == family ==> s.tokens[t].revoked
  }

  /** Tokens are never forgotten, never change hands, and never become usable again. */
  ghost predicate Onward(s: Server, after: Server) {
    forall t :: t in s.tokens ==>
      && t in after.tokens
      && after.tokens[t].family == s.tokens[t].family && after.tokens[t].user == s.tokens[t].user
      && (s.tokens[t].revoked ==> after.tokens[t].revoked)
  }

  lemma RevokeKeeps(s: Server, family: int)
    requires Inv(s)
    ensures Inv(RevokeFamily(s, family)) && Onward(s, RevokeFamily(s, family))
  {
  }

  lemma RotateKeeps(s: Server, raw: Token, now: int, ttl: int, fault: Fault)
    requires Inv(s)
    ensures Inv(Rotate(s, raw, now, ttl, fault).0) && Onward(s, Rotate(s, raw, now, ttl, fault).0)
  {
    hide RevokeFamily;
    if raw in s.tokens {
      RevokeKeeps(s, s.tokens[raw].family);
    }
  }

  lemma StepKeeps(s: Server, step: Step)
    requires Inv(s)
    ensures Inv(Apply(s, step))
    ensures Onward(s, Apply(s, step))
  {
    hide RevokeFamily, Rotate;
    match step
    case Login(_, _) =>
    case Refresh(raw, now, ttl, fault) => RotateKeeps(s, raw, now, ttl, fault);
    case Logout(raw) =>
      if raw in s.tokens {
        RevokeKeeps(s, s.tokens[raw].family);
      }
  }

  lemma StepKeepsDead(s: Server, step: Step, family: int)
    requires Inv(s) && Dead(s, family)
    ensures Dead(Apply(s, step), family)
  {
    var t :| t in s.tokens && s.tokens[t].family == family;
    assert t in Apply(s, step).tokens && Apply(s, step).tokens[t].family == family;
  }

  /** In every run each family has at most one usable token. */
  lemma {:induction false} RunKeeps(s: Server, steps: seq<Step>)
    requires Inv(s)
    ensures Inv(Run(s, steps)) && Onward(s, Run(s, steps))
  {
    if steps != [] {
      var before := Run(s, steps[..|steps| - 1]);
      RunKeeps(s, steps[..|steps| - 1]);
      StepKeeps(before, steps[|steps| - 1]);
      hide Inv, Apply;
    }
  }

  lemma {:induction false} ReachableInv(steps: seq<Step>)
    ensures Inv(Run(NO_TOKENS, steps))
  {
    RunKeeps(NO_TOKENS, steps);
  }

  /** A family without a usable token never regains one. */
  lemma {:induction false} DeadForever(s: Server, steps: seq<Step>, family: int)
    requires Inv(s) && Dead(s, family)
    ensures Dead(Run(s, steps), family)
  {
    if steps != [] {
      DeadForever(s, steps[..|steps| - 1], family);
      RunKeeps(s, steps[..|steps| - 1]);
      hide Inv, Dead, Apply;
      StepKeepsDead(Run(s, steps[..|steps| - 1]), steps[|steps| - 1], family);
    }
  }

  /** Presenting a used token kills its family for good, however many rotations it has seen since. */
  lemma ReuseKillsFamily(s: Server, raw: Token, now: int, ttl: int, fault: Fault, steps: seq<Step>)
    requires Inv(s) && raw in s.tokens && s.tokens[raw].revoked && fault != RevokeFails
    ensures var (after, answer) := Rotate(s, raw, now, ttl, fault);
            answer == Reused && Dead(Run(after, steps), s.tokens[raw].family)
  {
    var after := Apply(s, Refresh(raw, now, ttl, fault));
    StepKeeps(s, Refresh(raw, now, ttl, fault));
    assert raw in after.tokens && after.tokens[raw].family == s.tokens[raw].family;
    DeadForever(after, steps, s.tokens[raw].family);
  }

  /** A rotation succeeds exactly for a usable, unexpired token; its successor is then the only usable token
      of the same family and belongs to the same user. */
  lemma RotateSucceedsIff(s: Server, raw: Token, now: int, ttl: int, fault: Fault)
    requires Inv(s)
    ensures var (after, answer) := Rotate(s, raw, now, ttl, fault);
            && (answer.Rotated? <==> Live(s, raw) && now <= s.tokens[raw].expires && fault == NoFault)
            && (answer.Rotated? ==>
                  && answer.token !in s.tokens && answer.user == s.tokens[raw].user
                  && forall t :: Live(after, t) && after.tokens[t].family == s.tokens[raw].family <==> t == answer.token)
  {
  }

  /** What every rotation answers, and what becomes of every token: a use of a revoked token revokes its family, a successful or
      half-finished exchange revokes the presented token alone, and nothing else about any token changes. A successor expires
      after its time to live. */
  lemma RotateAnswers(s: Server, raw: Token, now: int, ttl: int, fault: Fault)
    requires Inv(s)
    ensures var (after, answer) := Rotate(s, raw, now, ttl, fault);
            && (answer == Unknown <==> raw !in s.tokens)
            && (answer == Reused <==> raw in s.tokens && s.tokens[raw].revoked && fault != RevokeFails)
            && (answer == Expired <==> Live(s, raw) && now > s.tokens[raw].expires)
            && (answer == StoreFailed
                <==> (raw in s.tokens && s.tokens[raw].revoked && fault == RevokeFails)
                     || (Live(s, raw) && now <= s.tokens[raw].expires && fault != NoFault))
            && (answer.Rotated? ==> after.tokens.Keys == s.tokens.Keys + {answer.token}
                                    && after.tokens[answer.token].expires == now + ttl
                                    && after.tokens[answer.token].user == s.tokens[raw].user)
            && (!answer.Rotated? ==> after.tokens.Keys == s.tokens.Keys)
            && forall t :: t in s.tokens ==>
                 after.tokens[t] == s.tokens[t].(revoked :=
                   s.tokens[t].revoked
                   || (answer == Reused && s.tokens[t].family == s.tokens[raw].family)
                   || (t == raw && (answer.Rotated? || (answer == StoreFailed && fault == CreateFails))))
  {
  }

  /** What a login and a logout do: one more usable token in a family of its own that expires when it should; every token of
      the presented one's family revoked, and nothing else. */
  lemma LoginAndLogout(s: Server, user: int, expires: int, raw: Token)
    requires Inv(s)
    ensures var after := Apply(s, Login(user, expires));
            exists t :: t !in s.tokens && after.tokens.Keys == s.tokens.Keys + {t} && Live(after, t)
              && after.tokens[t].user == user && after.tokens[t].expires == expires && !Known(s, after.tokens[t].family)
              && forall other :: other in s.tokens ==> after.tokens[other] == s.tokens[other]
    ensures var after := Apply(s, Logout(raw));
            after.tokens.Keys == s.tokens.Keys
            && forall t :: t in s.tokens ==>
                 after.tokens[t] == s.tokens[t].(revoked :=
                   s.tokens[t].revoked || (raw in s.tokens && s.tokens[t].family == s.tokens[raw].family))
  {
    var after := Issue(s, user, expires);
    var t := s.next;
    assert t !in s.tokens && after.tokens.Keys == s.tokens.Keys + {t} && Live(after, t);
    assert !Known(s, after.tokens[t].family);
  }

  /** No token is exchanged twice: whatever happens in between, a second attempt is answered as reuse. */
  lemma ExchangedOnce(s: Server, raw: Token, now: int, ttl: int, steps: seq<Step>, later: int, fault: Fault)
    requires Inv(s) && Rotate(s, raw, now, ttl, NoFault).1.Rotated?
    ensures Rotate(Run(Rotate(s, raw, now, ttl, NoFault).0, steps), raw, later, ttl, fault).1
         == if fault == RevokeFails then StoreFailed else Reused
  {
    var used := Apply(s, Refresh(raw, now, ttl, NoFault));
    StepKeeps(s, Refresh(raw, now, ttl, NoFault));
    assert raw in used.tokens && used.tokens[raw].revoked;
    RunKeeps(used, steps);
  }

  // ----- The service

  class TokenService {
    var tokens: map<Token, RefreshToken>
    var next: int

    ghost function State(): Server
      reads this
    {
      Server(tokens, next)
    }

    ghost predicate Valid()
      reads this
    {
      Inv(State())
    }

    constructor ()
      ensures Valid() && State() == NO_TOKENS
    {
      tokens, next := map[], 0;
    }

    method IssueRefreshToken(user: int, now: int, ttl: int) returns (raw: Token)
      requires Valid()
      modifies this
      ensures Valid() && State() == Issue(old(State()), user, now + ttl)
      ensures Live(State(), raw) && raw !in old(tokens)
    {
      StepKeeps(State(), Login(user, now + ttl));
      raw := next;
      tokens := tokens[raw := RefreshToken(user, next, now + ttl, false)];
      next := next + 1;
    }

    /** Revokes every token of the family that is not revoked yet. */
    method RevokeAll(family: int)
      modifies this`tokens
      ensures State() == RevokeFamily(old(State()), family)
    {
      var rest := set t | t in tokens && tokens[t].family == family && !tokens[t].revoked;
      while rest != {}
        invariant rest <= tokens.Keys && tokens.Keys == old(tokens).Keys
        invariant forall t :: t in rest ==> tokens[t] == old(tokens)[t]
        invariant forall t :: t in tokens && t !in rest ==>
                    tokens[t] == RevokeFamily(old(State()), family).tokens[t]
        invariant forall t :: t in rest ==> tokens[t].family == family
        decreases |rest|
      {
        assert exists t: Token :: t in rest by {
          assert (forall t: Token :: t !in rest) ==> rest == {};
        }
        var t :| t in rest;
        tokens := tokens[t := tokens[t].(revoked := true)];
        rest := rest - {t};
      }
      ghost var target := RevokeFamily(old(State()), family).tokens;
      assert tokens.Keys == target.Keys;
      assert forall t :: t in tokens ==> tokens[t] == target[t];
    }

    method RotateRefreshToken(raw: Token, now: int, ttl: int, fault: Fault) returns (answer: Rotation)
      requires Valid()
      modifies this
      ensures Valid()
      ensures (State(), answer) == Rotate(old(State()), raw, now, ttl, fault)
    {
      StepKeeps(State(), Refresh(raw, now, ttl, fault));
      hide Inv, RevokeFamily;
      if raw !in tokens {
        return Unknown;
      }
      var rec := tokens[raw];
      if rec.revoked {
        if fault == RevokeFails {
          return StoreFailed;
        }
        RevokeAll(rec.family);
        return Reused;
      }
      if now > rec.expires {
        return Expired;
      }
      if fault == RevokeFails {
        return StoreFailed;
      }
      tokens := tokens[raw := rec.(revoked := true)];
      if fault == CreateFails {
        return StoreFailed;
      }
      var newRaw := next;
      next := next + 1;
      tokens := tokens[newRaw := RefreshToken(rec.user, rec.family, now + ttl, false)];
      answer := Rotated(newRaw, rec.user);
    }

    method RevokeFamilyOf(raw: Token)
      requires Valid()
      modifies this
      ensures Valid() && State() == RevokeFamilyByToken(old(State()), raw)
    {
      StepKeeps(State(), Logout(raw));
      hide Inv, RevokeFamily;
      if raw in tokens {
        RevokeAll(tokens[raw].family);
      }
    }
  }
}
