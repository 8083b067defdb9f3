/** The twelve-month campaign (web/src/lib/game/engine.ts) and its save files (persistence.ts). */
module Game {
  import opened Wrappers

  const CAMPAIGN_MONTHS: int := 12
  const STARTING_CREDITS: int := 55
  const MONTHLY_INCOME: int := 35
  const METRIC_MIN: int := 0
  const METRIC_MAX: int := 100
  const SAVE_VERSION: int := 1
  const MAX_SAFE_INTEGER: int := 9007199254740991
  const WRAP: int := 0x1_0000_0000

  datatype ActionId = Maintenance | Insulation | Garden | Elevator

  datatype EventId = WaterLeak | EnergySpike | LiftFailure | GardenRequest

  datatype ChoiceId =
    | RepairLeak | DeferLeak | InstallLighting | ReduceLighting
    | UrgentLiftRepair | DelayLiftRepair | BuildGarden | PostponeGarden

  datatype Effect = Effect(cost: int, credits: int, condition: int, satisfaction: int, efficiency: int)

  datatype Phase = ActionPhase | EventPhase | Complete

  datatype Entry = Entry(month: int, action: ActionId, event: EventId, choice: ChoiceId)

  datatype Campaign = Campaign(
    month: int, credits: int, condition: int, satisfaction: int, efficiency: int, seed: int, phase: Phase,
    selected: Option<ActionId>, current: Option<EventId>, history: seq<Entry>)

  datatype Refusal = WrongPhase | Unaffordable | InvalidChoice

  datatype Transition = Accepted(state: Campaign) | Refused(state: Campaign, why: Refusal)

  function ActionEffect(a: ActionId): Effect {
    match a
    case Maintenance => Effect(18, 0, 12, 3, 0)
    case Insulation => Effect(24, 0, 2, 0, 14)
    case Garden => Effect(20, 0, 0, 13, -2)
    case Elevator => Effect(32, 0, 15, 4, 0)
  }

  const EVENTS: seq<EventId> := [WaterLeak, EnergySpike, LiftFailure, GardenRequest]

  predicate Offers(e: EventId, c: ChoiceId) {
    match e
    case WaterLeak => c == RepairLeak || c == DeferLeak
    case EnergySpike => c == InstallLighting || c == ReduceLighting
    case LiftFailure => c == UrgentLiftRepair || c == DelayLiftRepair
    case GardenRequest => c == BuildGarden || c == PostponeGarden
  }

  function ChoiceEffect(c: ChoiceId): Effect {
    match c
    case RepairLeak => Effect(18, 0, 12, 1, 0)
    case DeferLeak => Effect(0, 0, -10, -6, 0)
    case InstallLighting => Effect(15, 0, 0, 0, 12)
    case ReduceLighting => Effect(0, 0, 0, -7, 4)
    case UrgentLiftRepair => Effect(24, 0, 14, 4, 0)
    case DelayLiftRepair => Effect(0, 0, -12, -9, 0)
    case BuildGarden => Effect(20, 0, 0, 12, -1)
    case PostponeGarden => Effect(0, 4, 0, -3, 0)
  }

  // ----- Seeds: 32-bit arithmetic

  function ToUint32(n: int): int {
    n % WRAP
  }

  function ToInt32(n: int): int {
    if n % WRAP < WRAP / 2 then n % WRAP else n % WRAP - WRAP
  }

  function Imul(a: int, b: int): int {
    ToInt32(a * b)
  }

  function AdvanceSeed(seed: int): int {
    ToUint32(Imul(seed, 1664525) + 1013904223)
  }

  /** Any JavaScript number a caller may pass as a seed. */
  datatype SeedInput = Whole(n: int) | NotWhole

  function NormalizeSeed(seed: SeedInput): int {
    if seed.Whole? && -MAX_SAFE_INTEGER <= seed.n <= MAX_SAFE_INTEGER then ToUint32(seed.n) else 1
  }

  // ----- Transitions

  function ClampMetric(value: int): int {
    var capped := if value < METRIC_MAX then value else METRIC_MAX;
    if capped > METRIC_MIN then capped else METRIC_MIN
  }

  function ApplyMetrics(s: Campaign, e: Effect): Campaign {
    s.(condition := ClampMetric(s.condition + e.condition),
       satisfaction := ClampMetric(s.satisfaction + e.satisfaction),
       efficiency := ClampMetric(s.efficiency + e.efficiency))
  }

  function CreateCampaign(seed: SeedInput): Campaign {
    Campaign(1, STARTING_CREDITS, 60, 60, 60, NormalizeSeed(seed), ActionPhase, None, None, [])
  }

  function ChooseAction(s: Campaign, a: ActionId): Transition {
    if s.phase != ActionPhase then Refused(s, WrongPhase)
    else if ActionEffect(a).cost > s.credits then Refused(s, Unaffordable)
    else
      var seed := AdvanceSeed(s.seed);
      Accepted(ApplyMetrics(s, ActionEffect(a)).(
        credits := s.credits - ActionEffect(a).cost, seed := seed, phase := EventPhase,
        selected := Some(a), current := Some(EVENTS[seed % |EVENTS|])))
  }

  function ResolveEventChoice(s: Campaign, c: ChoiceId): Transition {
    if s.phase != EventPhase || s.current == None || s.selected == None then Refused(s, WrongPhase)
    else if !Offers(s.current.value, c) then Refused(s, InvalidChoice)
    else if ChoiceEffect(c).cost > s.credits then Refused(s, Unaffordable)
    else
      var base := ApplyMetrics(s, ChoiceEffect(c)).(
        credits := s.credits - ChoiceEffect(c).cost + ChoiceEffect(c).credits,
        history := s.history + [Entry(s.month, s.selected.value, s.current.value, c)],
        selected := None, current := None);
      if s.month == CAMPAIGN_MONTHS then Accepted(base.(phase := Complete))
      else Accepted(base.(month := s.month + 1, credits := base.credits + MONTHLY_INCOME, phase := ActionPhase))
  }

  predicate CanAffordAction(s: Campaign, a: ActionId) {
    s.phase == ActionPhase && ActionEffect(a).cost <= s.credits
  }

  predicate CanAffordChoice(s: Campaign, c: ChoiceId) {
    s.phase == EventPhase && s.current.Some? && Offers(s.current.value, c) && ChoiceEffect(c).cost <= s.credits
  }

  // ----- Runs

  datatype Move = Act(action: ActionId) | Resolve(choice: ChoiceId)

  function Try(s: Campaign, m: Move): Transition {
    match m
    case Act(a) => ChooseAction(s, a)
    case Resolve(c) => ResolveEventChoice(s, c)
  }

  /** The state after a player's moves, with how many of them were accepted. */
  function Play(seed: SeedInput, moves: seq<Move>): (Campaign, nat) {
    if moves == [] then (CreateCampaign(seed), 0)
    else
      var (before, n) := Play(seed, moves[..|moves| - 1]);
      var t := Try(before, moves[|moves| - 1]);
      (t.state, if t.Accepted? then n + 1 else n)
  }

  // ----- The save schema

  predicate EntryFits(e: Entry) {
    1 <= e.month <= CAMPAIGN_MONTHS
  }

  /** What a save must look like to be accepted. */
  ghost predicate Schema(s: Campaign) {
    && 1 <= s.month <= CAMPAIGN_MONTHS && s.credits >= 0
    && METRIC_MIN <= s.condition <= METRIC_MAX && METRIC_MIN <= s.satisfaction <= METRIC_MAX
    && METRIC_MIN <= s.efficiency <= METRIC_MAX
    && 0 <= s.seed <= 0xFFFF_FFFF
    && |s.history| <= CAMPAIGN_MONTHS && (forall i :: 0 <= i < |s.history| ==> EntryFits(s.history[i]))
    && (s.phase == ActionPhase ==> s.selected == None && s.current == None)
    && (s.phase == EventPhase ==> s.selected != None && s.current != None)
    && (s.phase == Complete ==> s.month == CAMPAIGN_MONTHS && |s.history| == CAMPAIGN_MONTHS)
    && |s.history| == if s.phase == Complete then CAMPAIGN_MONTHS else s.month - 1
  }

  /** The event that follows `taken` actions in a campaign that started with this seed. */
  function EventAt(start: int, taken: nat): EventId {
    EVENTS[(start + 3 * taken) % 4]
  }

  function Taken(s: Campaign): nat {
    |s.history| + if s.phase == EventPhase then 1 else 0
  }

  /** A campaign under way: its history is in order, its events follow the seed, and an action phase starts
      with at least a month's income. */
  ghost predicate Under(start: int, s: Campaign) {
    && Schema(s)
    && s.seed % 4 == (start + 3 * Taken(s)) % 4
    && (s.phase == EventPhase ==> s.current == Some(EventAt(start, Taken(s))))
    && (s.phase == ActionPhase ==> s.credits >= MONTHLY_INCOME)
    && (forall i :: 0 <= i < |s.history| ==>
          && s.history[i].month == i + 1 && s.history[i].event == EventAt(start, i + 1)
          && Offers(s.history[i].event, s.history[i].choice))
  }

  lemma SameMod4(a: int, b: int, k: int)
    requires a == b + 4 * k
    ensures a % 4 == b % 4
  {
  }

  lemma Wraps(n: int)
    ensures n == ToUint32(n) + WRAP * (n / WRAP) && 0 <= ToUint32(n) <= 0xFFFF_FFFF
    ensures n == ToInt32(n) + WRAP * (n / WRAP) || n == ToInt32(n) + WRAP * (n / WRAP + 1)
  {
  }

  /** Wrapping at 32 bits, signed or not, does not change a number modulo four. */
  lemma WrapMod4(n: int)
    ensures ToUint32(n) % 4 == n % 4 && ToInt32(n) % 4 == n % 4
  {
  }

  /** The 32-bit step moves the seed by three, modulo four. */
  lemma SeedCycle(seed: int)
    ensures 0 <= AdvanceSeed(seed) <= 0xFFFF_FFFF
    ensures AdvanceSeed(seed) % 4 == (seed + 3) % 4
  {
    var low := Imul(seed, 1664525);
    Wraps(low + 1013904223);
    WrapMod4(seed * 1664525);
    WrapMod4(low + 1013904223);
    hide ToUint32, ToInt32;
    SameMod4(seed * 1664525, seed, 416131 * seed);
    SameMod4(low + 1013904223, low + 3, 253476055);
    LowPlusThree(low, seed);
  }

  lemma LowPlusThree(low: int, seed: int)
    requires low % 4 == seed % 4
    ensures (low + 3) % 4 == (seed + 3) % 4
  {
  }

  /** Signed multiplication, addition and wrapping together are the linear congruence modulo two to the 32nd. */
  lemma SeedStep(seed: int)
    ensures AdvanceSeed(seed) == (1664525 * seed + 1013904223) % 0x1_0000_0000
  {
    var product := seed * 1664525;
    Wraps(product);
    var low := ToInt32(product);
    Wraps(low + 1013904223);
    Wraps(product + 1013904223);
    hide ToInt32;
    SameRemainder(low + 1013904223, product + 1013904223, if product == low + WRAP * (product / WRAP) then product / WRAP
                                                          else product / WRAP + 1);
  }

  lemma SameRemainder(a: int, b: int, k: int)
    requires b == a + WRAP * k
    ensures a % WRAP == b % WRAP
  {
  }

  lemma StartUnder(seed: SeedInput)
    ensures Under(CreateCampaign(seed).seed, CreateCampaign(seed))
  {
  }

  lemma ActKeeps(start: int, s: Campaign, a: ActionId)
    requires Under(start, s) && ChooseAction(s, a).Accepted?
    ensures Under(start, ChooseAction(s, a).state)
    ensures Taken(ChooseAction(s, a).state) == Taken(s) + 1
  {
    SeedCycle(s.seed);
    hide AdvanceSeed;
    assert (s.seed + 3) % 4 == (start + 3 * (Taken(s) + 1)) % 4;
  }

  lemma ResolveKeeps(start: int, s: Campaign, c: ChoiceId)
    requires Under(start, s) && ResolveEventChoice(s, c).Accepted?
    ensures Under(start, ResolveEventChoice(s, c).state)
    ensures Taken(ResolveEventChoice(s, c).state) == Taken(s)
  {
  }

  /** How many moves have been accepted so far. */
  function Progress(s: Campaign): nat {
    2 * |s.history| + if s.phase == EventPhase then 1 else 0
  }

  lemma {:induction false} PlayUnder(seed: SeedInput, moves: seq<Move>)
    ensures Under(NormalizeSeed(seed), Play(seed, moves).0)
    ensures Play(seed, moves).1 == Progress(Play(seed, moves).0)
  {
    var start := NormalizeSeed(seed);
    if moves == [] {
      StartUnder(seed);
    } else {
      var before := Play(seed, moves[..|moves| - 1]).0;
      PlayUnder(seed, moves[..|moves| - 1]);
      hide Under, NormalizeSeed, AdvanceSeed;
      match moves[|moves| - 1]
      case Act(a) =>
        if ChooseAction(before, a).Accepted? {
          ActKeeps(start, before, a);
        }
      case Resolve(c) =>
        if ResolveEventChoice(before, c).Accepted? {
          ResolveKeeps(start, before, c);
        }
    }
  }

  // ----- What every campaign is like

  /** Every reachable state fits the save schema. */
  lemma {:induction false} ReachableFitsSchema(seed: SeedInput, moves: seq<Move>)
    ensures Schema(Play(seed, moves).0)
  {
    PlayUnder(seed, moves);
  }

  /** In a reachable action phase every action can be afforded, and in an event phase some choice can. */
  lemma NeverStuck(seed: SeedInput, moves: seq<Move>, a: ActionId)
    ensures var s := Play(seed, moves).0;
            && (s.phase == ActionPhase ==> CanAffordAction(s, a) && ChooseAction(s, a).Accepted?)
            && (s.phase == EventPhase ==> exists c :: CanAffordChoice(s, c) && ResolveEventChoice(s, c).Accepted?)
  {
    PlayUnder(seed, moves);
    var s := Play(seed, moves).0;
    if s.phase == EventPhase {
      var c := FreeChoice(s.current.value);
      assert CanAffordChoice(s, c) && ResolveEventChoice(s, c).Accepted?;
    }
  }

  /** The choice of an event that costs nothing. */
  function FreeChoice(e: EventId): (c: ChoiceId)
    ensures Offers(e, c) && ChoiceEffect(c).cost == 0
  {
    match e
    case WaterLeak => DeferLeak
    case EnergySpike => ReduceLighting
    case LiftFailure => DelayLiftRepair
    case GardenRequest => PostponeGarden
  }

  /** A campaign is complete exactly after 24 accepted moves, never has more, and then accepts none. */
  lemma {:induction false} TwentyFourMoves(seed: SeedInput, moves: seq<Move>, m: Move)
    ensures var (s, n) := Play(seed, moves);
            n <= 24 && (s.phase == Complete <==> n == 24) && (n == 24 ==> Try(s, m).Refused?)
  {
    PlayUnder(seed, moves);
  }

  function Count(history: seq<Entry>, e: EventId): nat {
    if history == [] then 0
    else Count(history[..|history| - 1], e) + if history[|history| - 1].event == e then 1 else 0
  }

  lemma CountFour(history: seq<Entry>, start: int, k: nat, e: EventId)
    requires 4 * k + 4 <= |history|
    requires forall i :: 0 <= i < |history| ==> history[i].event == EventAt(start, i + 1)
    ensures Count(history[..4 * k + 4], e) == Count(history[..4 * k], e) + 1
  {
    var n := 4 * k;
    CountNext(history, n, e);
    CountNext(history, n + 1, e);
    CountNext(history, n + 2, e);
    CountNext(history, n + 3, e);
    FourInTurn(start, n, e);
  }

  lemma CountNext(history: seq<Entry>, n: nat, e: EventId)
    requires n < |history|
    ensures Count(history[..n + 1], e) == Count(history[..n], e) + if history[n].event == e then 1 else 0
  {
    assert history[..n + 1][..n] == history[..n];
  }

  function Hit(start: int, taken: nat, e: EventId): nat {
    if EventAt(start, taken) == e then 1 else 0
  }

  /** Four events in a row are the four events. */
  lemma FourInTurn(start: int, n: nat, e: EventId)
    ensures Hit(start, n + 1, e) + Hit(start, n + 2, e) + Hit(start, n + 3, e) + Hit(start, n + 4, e) == 1
  {
  }

  /** Whatever the seed and whatever the player does, a complete campaign has met each event three times. */
  lemma {:induction false} EachEventThreeTimes(seed: SeedInput, moves: seq<Move>, e: EventId)
    requires Play(seed, moves).0.phase == Complete
    ensures Count(Play(seed, moves).0.history, e) == 3
  {
    PlayUnder(seed, moves);
    var history := Play(seed, moves).0.history;
    var start := NormalizeSeed(seed);
    hide Play, Count, EventAt;
    assert history[..0] == [] && history[..12] == history;
    CountFour(history, start, 0, e);
    CountFour(history, start, 1, e);
    CountFour(history, start, 2, e);
    assert Count([], e) == 0 by {
      CountNone(e);
    }
  }

  lemma CountNone(e: EventId)
    ensures Count([], e) == 0
  {
  }

  /** What fits the schema is a month of the campaign with its whole history, metrics between 0 and 100, and the selection and
      event of its phase: a save with anything else is not taken. */
  lemma SchemaMeans(s: Campaign)
    requires Schema(s)
    ensures 1 <= s.month <= 12 && s.credits >= 0 && 0 <= s.condition <= 100 && 0 <= s.satisfaction <= 100
    ensures 0 <= s.efficiency <= 100 && 0 <= s.seed < 0x1_0000_0000
    ensures forall e :: e in s.history ==> 1 <= e.month <= 12
    ensures match s.phase
            case ActionPhase => |s.history| == s.month - 1 && s.selected.None? && s.current.None?
            case EventPhase => |s.history| == s.month - 1 && s.selected.Some? && s.current.Some?
            case Complete => |s.history| == 12 == s.month
  {
  }

  // ----- What a move does

  /** The metric moves by the amount as far as it stays between 0 and 100. */
  predicate Moved(before: int, amount: int, after: int) {
    after == if before + amount > 100 then 100 else if before + amount < 0 then 0 else before + amount
  }

  /** An accepted action costs its price, moves the three metrics, draws the event by the new seed, and leaves month and
      history alone. */
  lemma ActionOutcome(s: Campaign, a: ActionId)
    requires ChooseAction(s, a).Accepted? && 0 <= s.condition <= 100 && 0 <= s.satisfaction <= 100 && 0 <= s.efficiency <= 100
    ensures var t := ChooseAction(s, a).state;
            && s.phase == ActionPhase && t.phase == EventPhase && t.selected == Some(a)
            && t.month == s.month && t.history == s.history && t.credits >= 0
            && match a
               case Maintenance =>
                 t.credits == s.credits - 18 && Moved(s.condition, 12, t.condition)
                 && Moved(s.satisfaction, 3, t.satisfaction) && t.efficiency == s.efficiency
               case Insulation =>
                 t.credits == s.credits - 24 && Moved(s.condition, 2, t.condition)
                 && t.satisfaction == s.satisfaction && Moved(s.efficiency, 14, t.efficiency)
               case Garden =>
                 t.credits == s.credits - 20 && t.condition == s.condition
                 && Moved(s.satisfaction, 13, t.satisfaction) && Moved(s.efficiency, -2, t.efficiency)
               case Elevator =>
                 t.credits == s.credits - 32 && Moved(s.condition, 15, t.condition)
                 && Moved(s.satisfaction, 4, t.satisfaction) && t.efficiency == s.efficiency
  {
    hide AdvanceSeed;
  }

  /** An accepted choice is one of the event's two; it costs its price, moves the metrics, records the month, and goes on to
      the next month with its income, or ends the campaign after the twelfth. */
  lemma ChoiceOutcome(s: Campaign, c: ChoiceId)
    requires ResolveEventChoice(s, c).Accepted?
    requires 0 <= s.condition <= 100 && 0 <= s.satisfaction <= 100 && 0 <= s.efficiency <= 100
    ensures var t := ResolveEventChoice(s, c).state;
            var income := if s.month == 12 then 0 else 35;
            && s.phase == EventPhase && s.selected.Some? && s.current.Some?
            && t.history == s.history + [Entry(s.month, s.selected.value, s.current.value, c)] && t.seed == s.seed
            && t.selected == None && t.current == None
            && (if s.month == 12 then t.phase == Complete && t.month == 12 else t.phase == ActionPhase && t.month == s.month + 1)
            && match c
               case RepairLeak =>
                 s.current.value == WaterLeak && t.credits == s.credits - 18 + income
                 && Moved(s.condition, 12, t.condition) && Moved(s.satisfaction, 1, t.satisfaction) && t.efficiency == s.efficiency
               case DeferLeak =>
                 s.current.value == WaterLeak && t.credits == s.credits + income
                 && Moved(s.condition, -10, t.condition) && Moved(s.satisfaction, -6, t.satisfaction) && t.efficiency == s.efficiency
               case InstallLighting =>
                 s.current.value == EnergySpike && t.credits == s.credits - 15 + income
                 && t.condition == s.condition && t.satisfaction == s.satisfaction && Moved(s.efficiency, 12, t.efficiency)
               case ReduceLighting =>
                 s.current.value == EnergySpike && t.credits == s.credits + income
                 && t.condition == s.condition && Moved(s.satisfaction, -7, t.satisfaction) && Moved(s.efficiency, 4, t.efficiency)
               case UrgentLiftRepair =>
                 s.current.value == LiftFailure && t.credits == s.credits - 24 + income
                 && Moved(s.condition, 14, t.condition) && Moved(s.satisfaction, 4, t.satisfaction) && t.efficiency == s.efficiency
               case DelayLiftRepair =>
                 s.current.value == LiftFailure && t.credits == s.credits + income
                 && Moved(s.condition, -12, t.condition) && Moved(s.satisfaction, -9, t.satisfaction) && t.efficiency == s.efficiency
               case BuildGarden =>
                 s.current.value == GardenRequest && t.credits == s.credits - 20 + income
                 && t.condition == s.condition && Moved(s.satisfaction, 12, t.satisfaction) && Moved(s.efficiency, -1, t.efficiency)
               case PostponeGarden =>
                 s.current.value == GardenRequest && t.credits == s.credits + 4 + income
                 && t.condition == s.condition && Moved(s.satisfaction, -3, t.satisfaction) && t.efficiency == s.efficiency
  {
  }

  /** What the accepted moves have cost so far, net of what they brought in. */
  function Spent(history: seq<Entry>): int {
    if history == [] then 0
    else
      var e := history[|history| - 1];
      Spent(history[..|history| - 1]) + ActionEffect(e.action).cost + ChoiceEffect(e.choice).cost - ChoiceEffect(e.choice).credits
  }

  /** The credits after any run: the initial 55, 35 for each month begun after the first, less what the history and the action
      under way have cost. Refused moves cost nothing. */
  lemma {:induction false} CreditsAddUp(seed: SeedInput, moves: seq<Move>)
    ensures var s := Play(seed, moves).0;
            s.credits == 55 + 35 * (s.month - 1) - Spent(s.history)
                         - if s.phase == EventPhase && s.selected.Some? then ActionEffect(s.selected.value).cost else 0
  {
    if moves != [] {
      var before := Play(seed, moves[..|moves| - 1]).0;
      CreditsAddUp(seed, moves[..|moves| - 1]);
      PlayUnder(seed, moves[..|moves| - 1]);
      hide NormalizeSeed, AdvanceSeed, EventAt;
      match moves[|moves| - 1]
      case Act(a) =>
      case Resolve(c) => SpentMore(before.history, before, c);
    }
  }

  lemma SpentMore(history: seq<Entry>, s: Campaign, c: ChoiceId)
    ensures forall a, e ::
      (Spent(history + [Entry(s.month, a, e, c)])
       == Spent(history) + ActionEffect(a).cost + ChoiceEffect(c).cost - ChoiceEffect(c).credits)
  {
    forall a, e
      ensures Spent(history + [Entry(s.month, a, e, c)])
           == Spent(history) + ActionEffect(a).cost + ChoiceEffect(c).cost - ChoiceEffect(c).credits
    {
      var longer := history + [Entry(s.month, a, e, c)];
      assert longer[..|longer| - 1] == history;
    }
  }

  /** The seed decides the events: whatever the player does, the event of each month is known from the seed's remainder by
      four, and the events come round in the opposite order. */
  lemma EventsFollowSeed(seed: SeedInput, moves: seq<Move>, i: nat)
    requires i < |Play(seed, moves).0.history|
    ensures var start := if seed.Whole? && -9007199254740991 <= seed.n <= 9007199254740991 then seed.n else 1;
            Play(seed, moves).0.history[i].event
            == match (start + 3 * (i + 1)) % 4
               case 0 => WaterLeak
               case 1 => EnergySpike
               case 2 => LiftFailure
               case _ => GardenRequest
  {
    hide Play, NormalizeSeed, EventAt, Schema;
    PlayUnder(seed, moves);
    SeedMod4(seed);
    var start := if seed.Whole? && -9007199254740991 <= seed.n <= 9007199254740991 then seed.n else 1;
    EventIs(NormalizeSeed(seed), start, i + 1);
  }

  lemma SeedMod4(seed: SeedInput)
    ensures NormalizeSeed(seed) % 4
         == (if seed.Whole? && -9007199254740991 <= seed.n <= 9007199254740991 then seed.n else 1) % 4
  {
    if seed.Whole? {
      WrapMod4(seed.n);
    }
  }

  lemma EventIs(a: int, b: int, taken: nat)
    requires a % 4 == b % 4
    ensures EventAt(a, taken) == match (b + 3 * taken) % 4
                                 case 0 => WaterLeak
                                 case 1 => EnergySpike
                                 case 2 => LiftFailure
                                 case _ => GardenRequest
  {
    SameMod4Sum(a, b, 3 * taken);
  }

  /** The first month of a campaign as the source's own example has it. */
  lemma FirstMonth()
    ensures var s := Play(Whole(1), [Act(Maintenance), Resolve(RepairLeak)]).0;
            && s.month == 2 && s.credits == 54 && s.condition == 84 && s.satisfaction == 64 && s.efficiency == 60
            && s.phase == ActionPhase && s.history == [Entry(1, Maintenance, WaterLeak, RepairLeak)]
  {
    var moves := [Act(Maintenance), Resolve(RepairLeak)];
    assert moves[..1] == [Act(Maintenance)] && [Act(Maintenance)][..0] == [];
    SeedCycle(1);
    hide AdvanceSeed;
  }

  lemma SameMod4Sum(a: int, b: int, k: int)
    requires a % 4 == b % 4
    ensures (a + k) % 4 == (b + k) % 4
  {
  }

  /** When a move is refused, and why; it then changes nothing. */
  lemma RefusedMove(s: Campaign, m: Move)
    ensures match Try(s, m)
            case Accepted(_) => true
            case Refused(state, why) =>
              && state == s
              && match m
                 case Act(a) =>
                   if s.phase != ActionPhase then why == WrongPhase
                   else why == Unaffordable && s.credits < (match a case Maintenance => 18 case Insulation => 24
                                                                    case Garden => 20 case Elevator => 32)
                 case Resolve(c) =>
                   if s.phase != EventPhase || s.current == None || s.selected == None then why == WrongPhase
                   else if !Offers(s.current.value, c) then why == InvalidChoice
                   else why == Unaffordable && s.credits < ChoiceEffect(c).cost
  {
  }

  // ----- Saving and loading

  /** What a storage entry parses to; anything that is not an envelope counts as malformed. */
  datatype Saved = Envelope(version: int, campaign: Campaign) | Malformed

  class GameStorage {
    var items: map<string, Saved>

    /** Stores a campaign that fits the schema; the storage may be full or forbidden. */
    method SaveCampaign(key: string, campaign: Campaign, writable: bool) returns (saved: bool)
      modifies this
      ensures saved <==> Schema(campaign) && writable
      ensures items == if saved then old(items)[key := Envelope(SAVE_VERSION, campaign)] else old(items)
    {
      var fits := FitsSchema(campaign);
      if !fits || !writable {
        return false;
      }
      items := items[key := Envelope(SAVE_VERSION, campaign)];
      saved := true;
    }

    /** Loads a save; one that does not parse, does not fit or has another version is discarded. The storage may
        refuse to be read, and to have the entry removed. */
    method LoadCampaign(key: string, readable: bool, removable: bool) returns (campaign: Option<Campaign>)
      modifies this
      ensures campaign.Some? <==>
        && readable && key in old(items) && old(items)[key].Envelope?
        && Schema(old(items)[key].campaign) && old(items)[key].version == SAVE_VERSION
      ensures campaign.Some? ==> campaign.value == old(items)[key].campaign && items == old(items)
      ensures campaign.None? ==> items == if readable && removable then old(items) - {key} else old(items)
    {
      if !readable {
        return None;
      }
      if key !in items {
        return None;
      }
      var found := items[key];
      var fits := false;
      if found.Envelope? {
        fits := FitsSchema(found.campaign);
      }
      if !fits || found.version != SAVE_VERSION {
        DiscardSave(key, removable);
        return None;
      }
      campaign := Some(found.campaign);
    }

    method DiscardSave(key: string, removable: bool)
      modifies this
      ensures items == if removable then old(items) - {key} else old(items)
    {
      if removable {
        items := items - {key};
      }
    }

    /** Removes the save; tells whether the storage allowed it. */
    method ClearCampaign(key: string, removable: bool) returns (cleared: bool)
      modifies this
      ensures cleared == removable && items == if removable then old(items) - {key} else old(items)
    {
      if !removable {
        return false;
      }
      items := items - {key};
      cleared := true;
    }

    /** A save made at any point of any campaign is accepted and loads as it was. */
    method SaveThenLoad(key: string, seed: SeedInput, moves: seq<Move>) returns (loaded: Option<Campaign>)
      modifies this
      ensures loaded == Some(Play(seed, moves).0)
    {
      ReachableFitsSchema(seed, moves);
      hide Schema, Play;
      var saved := SaveCampaign(key, Play(seed, moves).0, true);
      loaded := LoadCampaign(key, true, true);
    }
  }

  method FitsSchema(s: Campaign) returns (fits: bool)
    ensures fits <==> Schema(s)
  {
    fits := 1 <= s.month <= CAMPAIGN_MONTHS && s.credits >= 0
      && METRIC_MIN <= s.condition <= METRIC_MAX && METRIC_MIN <= s.satisfaction <= METRIC_MAX
      && METRIC_MIN <= s.efficiency <= METRIC_MAX && 0 <= s.seed <= 0xFFFF_FFFF && |s.history| <= CAMPAIGN_MONTHS;
    for i := 0 to |s.history|
      invariant fits <==>
        && 1 <= s.month <= CAMPAIGN_MONTHS && s.credits >= 0
        && METRIC_MIN <= s.condition <= METRIC_MAX && METRIC_MIN <= s.satisfaction <= METRIC_MAX
        && METRIC_MIN <= s.efficiency <= METRIC_MAX && 0 <= s.seed <= 0xFFFF_FFFF && |s.history| <= CAMPAIGN_MONTHS
        && forall k :: 0 <= k < i ==> EntryFits(s.history[k])
    {
      fits := fits && EntryFits(s.history[i]);
    }
    var actionPhase := s.phase != ActionPhase || (s.selected == None && s.current == None);
    var eventPhase := s.phase != EventPhase || (s.selected != None && s.current != None);
    var completePhase := s.phase != Complete || (s.month == CAMPAIGN_MONTHS && |s.history| == CAMPAIGN_MONTHS);
    var expected := if s.phase == Complete then CAMPAIGN_MONTHS else s.month - 1;
    fits := fits && actionPhase && eventPhase && completePhase && |s.history| == expected;
  }
}
