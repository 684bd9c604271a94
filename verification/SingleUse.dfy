/** Single-use tokens against expiring spent markers: PoW tickets (server/src/routes/mod.rs,
    server/src/rds.rs) and login challenges (server/src/auth/challenge.rs, server/src/routes/auth.rs).
    A token gets its expiry when it is minted. A request reads the clock in whole seconds and checks the
    token; later, after work that takes time, it writes a marker that Redis forgets after a time to live
    (SET NX EX). Time is in milliseconds and never goes back. Each request is served by some server, whose
    clock may run ahead by up to `skew`; with `skew` 0 there is one clock. */
module SingleUse {

  type Token = nat
  type RequestId = nat

  /** `window(now, exp)`: the check made at second `now`. `ttl(now, exp)`: the marker's life in seconds.
      `life`: the seconds from minting to expiry. */
  datatype Policy = Policy(window: (int, int) -> bool, ttl: (int, int) -> nat, life: nat, skew: nat)

  /** A request that passed its check at time `at`, having read second `now`. */
  datatype Request = Request(token: Token, now: int, at: int)

  datatype State = State(
    clock: int, expiry: map<Token, int>, markers: map<Token, int>, open: map<RequestId, Request>, uses: map<Token, nat>)

  /** `ahead` is how far the clock of the server that does it runs ahead. */
  datatype Event =
    | Tick(ms: nat) | Mint(token: Token, ahead: nat) | Check(id: RequestId, token: Token, ahead: nat)
    | Spend(id: RequestId) | Drop(id: RequestId)

  function Seconds(ms: int): int { ms / 1000 }
  function Uses(s: State, t: Token): nat { if t in s.uses then s.uses[t] else 0 }

  /** A marker holds until its expiry, and not at it. */
  predicate Marked(s: State, t: Token) { t in s.markers && s.clock < s.markers[t] }

  /** Enabled events: tokens are minted once, a check must pass on a minted token, and a spend needs a
      request that passed its check. */
  predicate Enabled(p: Policy, s: State, e: Event) {
    match e
    case Tick(_) => true
    case Mint(t, ahead) => t !in s.expiry && ahead <= p.skew
    case Check(id, t, ahead) =>
      id !in s.open && t in s.expiry && ahead <= p.skew && p.window(Seconds(s.clock + ahead), s.expiry[t])
    case Spend(id) => id in s.open && s.open[id].token in s.expiry
    case Drop(id) => id in s.open
  }

  /** SET key NX EX ttl: true, and counted as a use, only if no marker is there. */
  function Next(p: Policy, s: State, e: Event): State
    requires Enabled(p, s, e)
  {
    match e
    case Tick(ms) => s.(clock := s.clock + ms)
    case Mint(t, ahead) => s.(expiry := s.expiry[t := Seconds(s.clock + ahead) + p.life])
    case Check(id, t, ahead) => s.(open := s.open[id := Request(t, Seconds(s.clock + ahead), s.clock)])
    case Drop(id) => s.(open := s.open - {id})
    case Spend(id) =>
      var r := s.open[id];
      var closed := s.(open := s.open - {id});
      if Marked(s, r.token) then closed
      else closed.(markers := s.markers[r.token := s.clock + 1000 * p.ttl(r.now, s.expiry[r.token])],
                   uses := s.uses[r.token := Uses(s, r.token) + 1])
  }

  function Start(clock: int): State { State(clock, map[], map[], map[], map[]) }

  ghost predicate CanRun(p: Policy, s: State, es: seq<Event>)
    decreases |es|
  {
    es == [] || (Enabled(p, s, es[0]) && CanRun(p, Next(p, s, es[0]), es[1..]))
  }

  function Run(p: Policy, s: State, es: seq<Event>): State
    requires CanRun(p, s, es)
    decreases |es|
  {
    if es == [] then s else Run(p, Next(p, s, es[0]), es[1..])
  }

  /** Every spend of the run lands before the deadline of its token. */
  ghost predicate InTime(p: Policy, deadline: int -> int, s: State, es: seq<Event>)
    requires CanRun(p, s, es)
    decreases |es|
  {
    es == [] ||
    ((es[0].Spend? ==> s.clock < deadline(s.expiry[s.open[es[0].id].token])) &&
     InTime(p, deadline, Next(p, s, es[0]), es[1..]))
  }

  /** Markers written by a request that passed its check, made no earlier than the minting, outlive the
      deadline. */
  ghost predicate Covers(p: Policy, deadline: int -> int) {
    forall at: int, now: int, exp: int :: CoversAt(p, deadline, at, now, exp)
  }

  predicate Checked(p: Policy, at: int, now: int, exp: int) {
    p.window(now, exp) && 1000 * now <= at + p.skew && at < 1000 * (now + 1) && 1000 * (exp - p.life) <= at + p.skew
  }

  ghost predicate CoversAt(p: Policy, deadline: int -> int, at: int, now: int, exp: int) {
    Checked(p, at, now, exp) ==> at + 1000 * p.ttl(now, exp) >= deadline(exp)
  }

  ghost predicate UsesOk(p: Policy, deadline: int -> int, s: State) {
    forall t :: Uses(s, t) <= 1 && (Uses(s, t) == 1 ==> t in s.expiry && t in s.markers && s.markers[t] >= deadline(s.expiry[t]))
  }

  ghost predicate TimesOk(p: Policy, s: State) {
    && (forall t :: t in s.expiry ==> 1000 * (s.expiry[t] - p.life) <= s.clock + p.skew)
    && (forall id :: id in s.open ==> RequestOk(p, s, s.open[id]))
  }

  predicate RequestOk(p: Policy, s: State, r: Request) {
    r.token in s.expiry && Checked(p, r.at, r.now, s.expiry[r.token]) && r.at <= s.clock
  }

  lemma TimesKept(p: Policy, s: State, e: Event)
    requires TimesOk(p, s) && Enabled(p, s, e)
    ensures TimesOk(p, Next(p, s, e))
  {
    var t := Next(p, s, e);
    forall id | id in t.open ensures RequestOk(p, t, t.open[id]) {
      assert id in s.open ==> RequestOk(p, s, s.open[id]);
    }
  }

  lemma UsesKept(p: Policy, deadline: int -> int, s: State, e: Event)
    requires Covers(p, deadline) && TimesOk(p, s) && UsesOk(p, deadline, s) && Enabled(p, s, e)
    requires e.Spend? ==> s.clock < deadline(s.expiry[s.open[e.id].token])
    ensures UsesOk(p, deadline, Next(p, s, e))
  {
    var t := Next(p, s, e);
    if e.Spend? {
      var r := s.open[e.id];
      assert RequestOk(p, s, r);
      assert CoversAt(p, deadline, r.at, r.now, s.expiry[r.token]);
    }
    forall x ensures Uses(t, x) <= 1 && (Uses(t, x) == 1 ==> x in t.expiry && x in t.markers && t.markers[x] >= deadline(t.expiry[x])) {
      assert Uses(s, x) <= 1;
    }
  }

  /** In every run whose spends land before the deadline, no token is used twice. */
  lemma {:induction false} UsedAtMostOnce(p: Policy, deadline: int -> int, s: State, es: seq<Event>, t: Token)
    requires Covers(p, deadline) && TimesOk(p, s) && UsesOk(p, deadline, s) && CanRun(p, s, es) && InTime(p, deadline, s, es)
    ensures Uses(Run(p, s, es), t) <= 1
    decreases |es|
  {
    if es != [] {
      TimesKept(p, s, es[0]);
      UsesKept(p, deadline, s, es[0]);
      UsedAtMostOnce(p, deadline, Next(p, s, es[0]), es[1..], t);
    }
  }

  /** The state after the token was minted and used at once, where the clock is furthest ahead. */
  function UsedOnce(p: Policy, exp: int): State {
    var c := 1000 * (exp - p.life) - p.skew;
    State(c, map[0 := exp], map[0 := c + 1000 * p.ttl(exp - p.life, exp)], map[], map[0 := 1])
  }

  /** No spend of the run comes more than `gap` milliseconds after its check. */
  ghost predicate Gaps(p: Policy, gap: int, s: State, es: seq<Event>)
    requires CanRun(p, s, es)
    decreases |es|
  {
    es == [] ||
    ((es[0].Spend? ==> s.clock - s.open[es[0].id].at <= gap) && Gaps(p, gap, Next(p, s, es[0]), es[1..]))
  }

  /** The events lead from s to t with gaps of at most `gap`. */
  ghost predicate Leads(p: Policy, gap: int, s: State, es: seq<Event>, t: State) {
    CanRun(p, s, es) && Run(p, s, es) == t && Gaps(p, gap, s, es)
  }

  lemma Prepend(p: Policy, gap: int, s: State, e: Event, es: seq<Event>, t: State)
    requires Enabled(p, s, e) && (e.Spend? ==> s.clock - s.open[e.id].at <= gap) && Leads(p, gap, Next(p, s, e), es, t)
    ensures Leads(p, gap, s, [e] + es, t)
  {
    assert ([e] + es)[1..] == es;
  }

  function FirstUse(p: Policy, more: seq<Event>): seq<Event> {
    [Mint(0, p.skew)] + ([Check(0, 0, p.skew)] + ([Spend(0)] + more))
  }

  lemma FirstUseLeads(p: Policy, gap: nat, exp: int, more: seq<Event>, t: State)
    requires p.window(exp - p.life, exp) && Leads(p, gap, UsedOnce(p, exp), more, t)
    ensures Leads(p, gap, Start(1000 * (exp - p.life) - p.skew), FirstUse(p, more), t)
  {
    var c := 1000 * (exp - p.life) - p.skew;
    var s1 := State(c, map[0 := exp], map[], map[], map[]);
    var s2 := s1.(open := map[0 := Request(0, exp - p.life, c)]);
    assert s2.open - {0} == map[];
    Prepend(p, gap, s2, Spend(0), more, t);
    Prepend(p, gap, s1, Check(0, 0, p.skew), [Spend(0)] + more, t);
    Prepend(p, gap, Start(c), Mint(0, p.skew), [Check(0, 0, p.skew)] + ([Spend(0)] + more), t);
  }

  /** A request open since `at`, and the state once it has spent, at the same time, a token whose marker is gone. */
  function Again(s: State, now: int, at: int): State { s.(open := map[1 := Request(0, now, at)]) }

  function UsedTwice(p: Policy, s: State, now: int, exp: int): State {
    s.(markers := map[0 := s.clock + 1000 * p.ttl(now, exp)], uses := map[0 := 2])
  }

  lemma SpendLeads(p: Policy, gap: nat, exp: int, now: int, at: int, clock: int)
    requires UsedOnce(p, exp).markers[0] <= clock <= at + gap
    ensures var s := UsedOnce(p, exp).(clock := clock);
      Leads(p, gap, Again(s, now, at), [Spend(1)] + [], UsedTwice(p, s, now, exp))
  {
    var s := UsedOnce(p, exp).(clock := clock);
    var c, d := Again(s, now, at), UsedTwice(p, s, now, exp);
    assert c.open - {1} == map[] && !Marked(c, 0);
    assert Next(p, c, Spend(1)) == d;
    Prepend(p, gap, c, Spend(1), [], d);
  }

  function SpendAgain(from: int, ahead: nat, t2: int, s2: int): seq<Event>
    requires from <= t2 <= s2
  {
    [Tick(t2 - from)] + ([Check(1, 0, ahead)] + ([Tick(s2 - t2)] + ([Spend(1)] + [])))
  }

  lemma SpendAgainLeads(p: Policy, gap: nat, exp: int, ahead: nat, t2: int, s2: int)
    requires ahead <= p.skew && p.window(Seconds(t2 + ahead), exp)
    requires UsedOnce(p, exp).clock <= t2 <= s2 <= t2 + gap && s2 >= UsedOnce(p, exp).markers[0]
    ensures var s := UsedOnce(p, exp);
      Leads(p, gap, s, SpendAgain(s.clock, ahead, t2, s2), UsedTwice(p, s.(clock := s2), Seconds(t2 + ahead), exp))
  {
    var s, now := UsedOnce(p, exp), Seconds(t2 + ahead);
    var d := UsedTwice(p, s.(clock := s2), now, exp);
    SpendLeads(p, gap, exp, now, t2, s2);
    Prepend(p, gap, Again(s.(clock := t2), now, t2), Tick(s2 - t2), [Spend(1)] + [], d);
    Prepend(p, gap, s.(clock := t2), Check(1, 0, ahead), [Tick(s2 - t2)] + ([Spend(1)] + []), d);
    Prepend(p, gap, s, Tick(t2 - s.clock), [Check(1, 0, ahead)] + ([Tick(s2 - t2)] + ([Spend(1)] + [])), d);
  }

  /** The run in which a token is used when it is minted and again by a request checked at t2 that spends at s2. */
  function Repeat(p: Policy, exp: int, ahead: nat, t2: int, s2: int): seq<Event>
    requires UsedOnce(p, exp).clock <= t2 <= s2
  {
    FirstUse(p, SpendAgain(UsedOnce(p, exp).clock, ahead, t2, s2))
  }

  /** The converse. A request that passed its check at `t2`, after the token was minted, and spends at
      `s2`, when the marker of a use made at the minting is gone, is a second use. */
  lemma LateSpendRepeats(p: Policy, gap: nat, exp: int, ahead: nat, t2: int, s2: int)
    requires p.window(exp - p.life, exp) && ahead <= p.skew && p.window(Seconds(t2 + ahead), exp)
    requires UsedOnce(p, exp).clock <= t2 <= s2 <= t2 + gap && s2 >= UsedOnce(p, exp).markers[0]
    ensures var s, es := Start(1000 * (exp - p.life) - p.skew), Repeat(p, exp, ahead, t2, s2);
      && CanRun(p, s, es) && Gaps(p, gap, s, es)
      && Run(p, s, es).clock == s2 && Run(p, s, es).expiry == map[0 := exp] && Uses(Run(p, s, es), 0) == 2
  {
    var s := UsedOnce(p, exp);
    var d := UsedTwice(p, s.(clock := s2), Seconds(t2 + ahead), exp);
    SpendAgainLeads(p, gap, exp, ahead, t2, s2);
    FirstUseLeads(p, gap, exp, SpendAgain(s.clock, ahead, t2, s2), d);
  }

  // ---------- gaps between check and spend ----------

  /** A check passes no later than `last` seconds after the expiry second. */
  ghost predicate Closes(p: Policy, last: int) { forall now: int, exp: int :: p.window(now, exp) ==> now <= exp + last }

  lemma {:induction false} ShortGapsInTime(p: Policy, deadline: int -> int, last: int, gap: int, s: State, es: seq<Event>)
    requires Closes(p, last) && TimesOk(p, s) && CanRun(p, s, es) && Gaps(p, gap, s, es)
    requires forall exp :: 1000 * (exp + last + 1) + gap <= deadline(exp)
    ensures InTime(p, deadline, s, es)
    decreases |es|
  {
    if es != [] {
      TimesKept(p, s, es[0]);
      ShortGapsInTime(p, deadline, last, gap, Next(p, s, es[0]), es[1..]);
      if es[0].Spend? {
        var r := s.open[es[0].id];
        assert RequestOk(p, s, r) && p.window(r.now, s.expiry[r.token]);
      }
    }
  }

  /** No run whose gaps are at most `gap` uses a token twice. */
  ghost predicate GapSafe(p: Policy, gap: int) {
    forall clock: int, es, t :: CanRun(p, Start(clock), es) && Gaps(p, gap, Start(clock), es) ==> Uses(Run(p, Start(clock), es), t) <= 1
  }

  // ---------- PoW tickets ----------

  function AtLeastOne(ttl: int): nat { if ttl < 1 then 1 else ttl }

  const POW_TICKET_TTL_SECS: nat := 600

  /** verify_pow: the ticket must not have expired, and the marker lives for what is left and a second. */
  function PowPolicy(skew: nat): Policy { Policy(PowWindow, PowTtl, POW_TICKET_TTL_SECS, skew) }

  predicate PowWindow(now: int, exp: int) { now < exp }
  function PowTtl(now: int, exp: int): nat { AtLeastOne(exp - now + 1) }

  /** A ticket is spent in time if its spend lands no later than its expiry second, less the skew. */
  function PowDeadline(skew: nat): int -> int { exp => 1000 * (exp + 1) - skew }

  lemma PowTicketsSingleUse(skew: nat, clock: int, es: seq<Event>, t: Token)
    requires CanRun(PowPolicy(skew), Start(clock), es)
    requires InTime(PowPolicy(skew), PowDeadline(skew), Start(clock), es)
    ensures Uses(Run(PowPolicy(skew), Start(clock), es), t) <= 1
  {
    UsedAtMostOnce(PowPolicy(skew), PowDeadline(skew), Start(clock), es, t);
  }

  /** Every later spend of a request that was checked in time can be a second use: the wait for an
      Argon2id slot comes between the check and the spend, and the marker may end in between. */
  lemma LatePowSpendRepeats(skew: nat, exp: int, ahead: nat, t2: int, s2: int)
    requires ahead <= skew && 1000 * (exp - POW_TICKET_TTL_SECS) - skew <= t2 && Seconds(t2 + ahead) < exp
    requires t2 <= s2 && s2 >= PowDeadline(skew)(exp)
    ensures var p := PowPolicy(skew);
      var s, es := Start(1000 * (exp - POW_TICKET_TTL_SECS) - skew), Repeat(p, exp, ahead, t2, s2);
      CanRun(p, s, es) && Run(p, s, es).clock == s2 && Run(p, s, es).expiry == map[0 := exp] && Uses(Run(p, s, es), 0) == 2
  {
    LateSpendRepeats(PowPolicy(skew), s2 - t2, exp, ahead, t2, s2);
  }

  /** Tickets are single use in every run with gaps of at most `gap` if and only if the gap and the skew
      together are at most a second. */
  lemma PowGapSafeIff(skew: nat, gap: nat)
    ensures GapSafe(PowPolicy(skew), gap) <==> gap <= 1000 - skew
  {
    var p := PowPolicy(skew);
    if gap <= 1000 - skew {
      forall clock: int, es, t | CanRun(p, Start(clock), es) && Gaps(p, gap, Start(clock), es)
        ensures Uses(Run(p, Start(clock), es), t) <= 1
      {
        ShortGapsInTime(p, PowDeadline(skew), -1, gap, Start(clock), es);
        PowTicketsSingleUse(skew, clock, es, t);
      }
    } else {
      var t2 := 999 + 1000 * (POW_TICKET_TTL_SECS - 1);
      LateSpendRepeats(p, gap, POW_TICKET_TTL_SECS, 0, t2, t2 + gap);
      assert Uses(Run(p, Start(0 - skew), Repeat(p, POW_TICKET_TTL_SECS, 0, t2, t2 + gap)), 0) == 2;
    }
  }

  // ---------- login challenges ----------

  const TTL_SECS: nat := 90
  const SKEW_SECS: nat := 30

  predicate ChallengeWindow(now: int, exp: int) { now <= exp <= now + TTL_SECS + SKEW_SECS }

  function LoginPolicy(skew: nat): Policy { Policy(ChallengeWindow, LoginTtl, TTL_SECS, skew) }

  function LoginTtl(now: int, exp: int): nat { AtLeastOne(TTL_SECS + 60) }

  /** The marker of a challenge used as soon as it is minted ends a minute after the expiry, less the skew. */
  function LoginDeadline(skew: nat): int -> int { exp => 1000 * (exp + 60) - skew }

  lemma LoginChallengesSingleUse(skew: nat, clock: int, es: seq<Event>, t: Token)
    requires CanRun(LoginPolicy(skew), Start(clock), es)
    requires InTime(LoginPolicy(skew), LoginDeadline(skew), Start(clock), es)
    ensures Uses(Run(LoginPolicy(skew), Start(clock), es), t) <= 1
  {
    UsedAtMostOnce(LoginPolicy(skew), LoginDeadline(skew), Start(clock), es, t);
  }

  /** Every later consume of a challenge checked in its window can be a second use. */
  lemma LateLoginConsumeRepeats(skew: nat, exp: int, ahead: nat, t2: int, s2: int)
    requires ahead <= skew && 1000 * (exp - TTL_SECS) - skew <= t2 && ChallengeWindow(Seconds(t2 + ahead), exp)
    requires t2 <= s2 && s2 >= LoginDeadline(skew)(exp)
    ensures var p := LoginPolicy(skew);
      var s, es := Start(1000 * (exp - TTL_SECS) - skew), Repeat(p, exp, ahead, t2, s2);
      CanRun(p, s, es) && Run(p, s, es).clock == s2 && Run(p, s, es).expiry == map[0 := exp] && Uses(Run(p, s, es), 0) == 2
  {
    LateSpendRepeats(LoginPolicy(skew), s2 - t2, exp, ahead, t2, s2);
  }

  /** Logins are single use in every run with gaps of at most `gap` if and only if the gap and the skew
      together are at most 59 seconds: 29 seconds for servers half a minute apart. */
  lemma LoginGapSafeIff(skew: nat, gap: nat)
    ensures GapSafe(LoginPolicy(skew), gap) <==> gap <= 59_000 - skew
  {
    var p := LoginPolicy(skew);
    if gap <= 59_000 - skew {
      forall clock: int, es, t | CanRun(p, Start(clock), es) && Gaps(p, gap, Start(clock), es)
        ensures Uses(Run(p, Start(clock), es), t) <= 1
      {
        ShortGapsInTime(p, LoginDeadline(skew), 0, gap, Start(clock), es);
        LoginChallengesSingleUse(skew, clock, es, t);
      }
    } else {
      var t2 := 999 + 1000 * TTL_SECS;
      LateSpendRepeats(p, gap, TTL_SECS, 0, t2, t2 + gap);
      assert Uses(Run(p, Start(0 - skew), Repeat(p, TTL_SECS, 0, t2, t2 + gap)), 0) == 2;
    }
  }
}
