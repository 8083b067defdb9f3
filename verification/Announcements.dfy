/** Which residents an announcement reaches (backend/internal/announcement): the in-memory index over a
    resident's units, the notification query, and the pages of the resident's list. */
module Announcements {
  import opened Wrappers
  import opened Numerals
  import opened MoneyText

  type Id = int

  datatype Kind = All | Block | Floor | Unit

  datatype Audience = Audience(kind: Kind, value: Option<string>)

  datatype Announcement = Announcement(
    id: Id, building: Id, audience: Audience, publishAt: Option<int>, expireAt: Option<int>)

  datatype UnitInfo = UnitInfo(id: Id, building: Id, block: Option<string>, floor: int)

  /** Text to unit identifier, and text to floor number. */
  datatype Readers = Readers(uuid: string -> Option<Id>, number: string -> Option<int>)

  // ----- What visibility means

  /** The unit belongs to the audience. */
  predicate Reaches(a: Announcement, unit: UnitInfo, readers: Readers) {
    && unit.building == a.building
    && match a.audience.kind
       case All => true
       case Block => a.audience.value.Some? && unit.block == a.audience.value
       case Floor => a.audience.value == Some(Decimal(unit.floor))
       case Unit => a.audience.value.Some? && readers.uuid(a.audience.value.value) == Some(unit.id)
  }

  predicate InWindow(a: Announcement, now: int) {
    && (a.publishAt.None? || a.publishAt.value <= now)
    && (a.expireAt.None? || a.expireAt.value > now)
  }

  predicate ReachesOneOf(a: Announcement, units: seq<UnitInfo>, readers: Readers) {
    exists k :: 0 <= k < |units| && Reaches(a, units[k], readers)
  }

  predicate Visible(a: Announcement, units: seq<UnitInfo>, readers: Readers, now: int) {
    InWindow(a, now) && ReachesOneOf(a, units, readers)
  }

  // ----- Normalised audiences

  /** What is stored: a value exactly when the kind needs one, canonical for floors, and for a unit the
      identifier of a unit of the building. */
  ghost predicate Normal(a: Announcement, units: map<Id, UnitInfo>, readers: Readers) {
    match a.audience.kind
    case All => a.audience.value.None?
    case Block => a.audience.value.Some? && a.audience.value.value != ""
    case Floor => exists n :: a.audience.value == Some(Decimal(n))
    case Unit =>
      && a.audience.value.Some?
      && var id := readers.uuid(a.audience.value.value);
         id.Some? && id.value in units && units[id.value].building == a.building
  }

  datatype Refusal = ValueForAll | ValueRequired | ValueInvalid | UnitNotFound | BlockTooLong

  datatype Input = Stored(audience: Audience) | Rejected(why: Refusal)

  function NormalizeAudience(
    kind: Kind, value: Option<string>, building: Id, units: map<Id, UnitInfo>, readers: Readers): Input
  {
    var trimmed := if value.Some? && Trim(value.value) != "" then Some(Trim(value.value)) else None;
    if kind == All then
      if trimmed.Some? then Rejected(ValueForAll) else Stored(Audience(All, None))
    else if trimmed.None? then Rejected(ValueRequired)
    else match kind
      case Unit =>
        var id := readers.uuid(trimmed.value);
        if id.None? then Rejected(ValueInvalid)
        else if id.value !in units || units[id.value].building != building then Rejected(UnitNotFound)
        else Stored(Audience(Unit, trimmed))
      case Floor =>
        var n := readers.number(trimmed.value);
        if n.None? then Rejected(ValueInvalid) else Stored(Audience(Floor, Some(Decimal(n.value))))
      case _ => if |trimmed.value| > 20 then Rejected(BlockTooLong) else Stored(Audience(Block, trimmed))
  }

  lemma NormalizedIsNormal(
    id: Id, kind: Kind, value: Option<string>, building: Id, units: map<Id, UnitInfo>, readers: Readers,
    publishAt: Option<int>, expireAt: Option<int>)
    requires NormalizeAudience(kind, value, building, units, readers).Stored?
    ensures var audience := NormalizeAudience(kind, value, building, units, readers).audience;
            Normal(Announcement(id, building, audience, publishAt, expireAt), units, readers)
  {
  }

  lemma DecimalsDiffer(a: int, b: int)
    ensures Decimal(a) == Decimal(b) <==> a == b
  {
    DecimalValue(a);
    DecimalValue(b);
    hide Decimal;
  }

  /** Whom an accepted audience reaches, said of what was typed: everybody in the building, its units of that block or on
      that floor, or the one unit with that identifier. */
  lemma AcceptedReaches(
    a: Announcement, kind: Kind, value: Option<string>, units: map<Id, UnitInfo>, readers: Readers, unit: UnitInfo)
    requires NormalizeAudience(kind, value, a.building, units, readers) == Stored(a.audience)
    ensures kind != All ==> value.Some?
    ensures Reaches(a, unit, readers)
       <==> unit.building == a.building
            && match kind
               case All => true
               case Block => unit.block == Some(Trim(value.value))
               case Floor => readers.number(Trim(value.value)) == Some(unit.floor)
               case Unit => readers.uuid(Trim(value.value)) == Some(unit.id)
  {
    if kind == Floor {
      DecimalsDiffer(readers.number(Trim(value.value)).value, unit.floor);
    }
    hide Decimal, Trim;
  }

  /** Exactly when an audience is refused, and why. */
  lemma RefusedAudience(kind: Kind, value: Option<string>, building: Id, units: map<Id, UnitInfo>, readers: Readers)
    ensures var given := value.Some? && Trim(value.value) != "";
            match NormalizeAudience(kind, value, building, units, readers)
            case Rejected(ValueForAll) => kind == All && given
            case Rejected(ValueRequired) => kind != All && !given
            case Rejected(ValueInvalid) =>
              given && ((kind == Unit && readers.uuid(Trim(value.value)) == None)
                        || (kind == Floor && readers.number(Trim(value.value)) == None))
            case Rejected(UnitNotFound) =>
              given && kind == Unit && readers.uuid(Trim(value.value)).Some?
              && var id := readers.uuid(Trim(value.value)).value; id !in units || units[id].building != building
            case Rejected(BlockTooLong) => given && kind == Block && |Trim(value.value)| > 20
            case Stored(audience) =>
              && audience.kind == kind && (given <==> kind != All)
              && (kind == Block ==> |Trim(value.value)| <= 20)
              && (kind == Unit ==> readers.uuid(Trim(value.value)).Some? && readers.uuid(Trim(value.value)).value in units)
  {
    hide Decimal, Trim;
  }

  // ----- The index

  datatype Index = Index(
    buildings: set<Id>, blocks: map<Id, set<string>>, floors: map<Id, set<string>>, unitIds: set<Id>)

  function At(m: map<Id, set<string>>, building: Id): set<string> {
    if building in m then m[building] else {}
  }

  /** One of the first `n` units has this block; one is on this floor. */
  ghost predicate BlockAt(units: seq<UnitInfo>, n: nat, building: Id, v: string)
    requires n <= |units|
  {
    v != "" && exists k :: 0 <= k < n && units[k].building == building && units[k].block == Some(v)
  }

  ghost predicate FloorAt(units: seq<UnitInfo>, n: nat, building: Id, v: string)
    requires n <= |units|
  {
    exists k :: 0 <= k < n && units[k].building == building && Decimal(units[k].floor) == v
  }

  /** The index holds what the first `n` units say. */
  ghost predicate Indexes(index: Index, units: seq<UnitInfo>, n: nat)
    requires n <= |units|
  {
    && (forall b :: b in index.buildings <==> exists k :: 0 <= k < n && units[k].building == b)
    && (forall b, v :: v in At(index.blocks, b) <==> BlockAt(units, n, b, v))
    && (forall b, v :: v in At(index.floors, b) <==> FloorAt(units, n, b, v))
    && (forall id :: id in index.unitIds <==> exists k :: 0 <= k < n && units[k].id == id)
  }

  lemma BlockAtNext(units: seq<UnitInfo>, n: nat, building: Id, v: string)
    requires n < |units|
    ensures BlockAt(units, n + 1, building, v)
       <==> BlockAt(units, n, building, v) || (v != "" && units[n].building == building && units[n].block == Some(v))
  {
  }

  lemma FloorAtNext(units: seq<UnitInfo>, n: nat, building: Id, v: string)
    requires n < |units|
    ensures FloorAt(units, n + 1, building, v)
       <==> FloorAt(units, n, building, v) || (units[n].building == building && Decimal(units[n].floor) == v)
  {
  }

  function Enter(m: map<Id, set<string>>, building: Id, v: string): map<Id, set<string>> {
    m[building := At(m, building) + {v}]
  }

  function AddUnit(index: Index, unit: UnitInfo): Index {
    Index(
      index.buildings + {unit.building},
      if unit.block.Some? && unit.block.value != "" then Enter(index.blocks, unit.building, unit.block.value)
      else index.blocks,
      Enter(index.floors, unit.building, Decimal(unit.floor)),
      index.unitIds + {unit.id})
  }

  lemma EnterAt(m: map<Id, set<string>>, building: Id, v: string, b: Id, w: string)
    ensures w in At(Enter(m, building, v), b) <==> w in At(m, b) || (b == building && w == v)
  {
  }

  lemma AddUnitIndexes(index: Index, units: seq<UnitInfo>, n: nat)
    requires n < |units| && Indexes(index, units, n)
    ensures Indexes(AddUnit(index, units[n]), units, n + 1)
  {
    var unit := units[n];
    var after := AddUnit(index, unit);
    hide Decimal, Enter, At, BlockAt, FloorAt;
    forall b, v
      ensures v in At(after.blocks, b) <==> BlockAt(units, n + 1, b, v)
    {
      BlockAtNext(units, n, b, v);
      if unit.block.Some? {
        EnterAt(index.blocks, unit.building, unit.block.value, b, v);
      }
    }
    forall b, v
      ensures v in At(after.floors, b) <==> FloorAt(units, n + 1, b, v)
    {
      FloorAtNext(units, n, b, v);
      EnterAt(index.floors, unit.building, Decimal(unit.floor), b, v);
    }
    assert forall b :: b in after.buildings <==> b in index.buildings || b == unit.building;
    assert forall id :: id in after.unitIds <==> id in index.unitIds || id == unit.id;
  }

  lemma EmptyIndexes(units: seq<UnitInfo>)
    ensures Indexes(Index({}, map[], map[], {}), units, 0)
  {
  }

  method BuildIndex(units: seq<UnitInfo>) returns (index: Index)
    ensures Indexes(index, units, |units|)
  {
    hide Indexes;
    index := Index({}, map[], map[], {});
    EmptyIndexes(units);
    for k := 0 to |units|
      invariant Indexes(index, units, k)
    {
      AddUnitIndexes(index, units, k);
      index := AddUnit(index, units[k]);
    }
  }

  /** The decision on the index, for an announcement of one of the resident's buildings. */
  predicate IndexSays(index: Index, a: Announcement, readers: Readers) {
    match a.audience.kind
    case All => true
    case Block => a.audience.value.Some? && a.audience.value.value in At(index.blocks, a.building)
    case Floor => a.audience.value.Some? && a.audience.value.value in At(index.floors, a.building)
    case Unit =>
      && a.audience.value.Some?
      && var id := readers.uuid(a.audience.value.value);
         id.Some? && id.value in index.unitIds
  }

  /** The resident's units are units of the register, which keeps units that were deleted. */
  ghost predicate Registered(units: seq<UnitInfo>, register: map<Id, UnitInfo>) {
    forall k :: 0 <= k < |units| ==> units[k].id in register && register[units[k].id] == units[k]
  }

  /** A block audience with an empty value, for a resident with such a block: the index leaves it out. */
  ghost predicate EmptyBlock(a: Announcement, units: seq<UnitInfo>) {
    a.audience == Audience(Block, Some(""))
    && exists k :: 0 <= k < |units| && units[k].building == a.building && units[k].block == Some("")
  }

  /** A unit audience that names a unit of the resident in another building only, for a resident who also lives in the
      announcement's: the index does not know which building a unit is in. */
  ghost predicate StrayUnit(a: Announcement, units: seq<UnitInfo>, readers: Readers) {
    && a.audience.kind == Unit && a.audience.value.Some?
    && var id := readers.uuid(a.audience.value.value);
       && id.Some?
       && (exists k :: 0 <= k < |units| && units[k].building == a.building)
       && (exists k :: 0 <= k < |units| && units[k].id == id.value)
       && forall k :: 0 <= k < |units| && units[k].id == id.value ==> units[k].building != a.building
  }

  /** What the index decides for an announcement. */
  predicate Decision(index: Index, a: Announcement, readers: Readers) {
    a.building in index.buildings && IndexSays(index, a, readers)
  }

  lemma DecisionIsSound(index: Index, a: Announcement, units: seq<UnitInfo>, readers: Readers)
    requires Indexes(index, units, |units|) && Decision(index, a, readers)
    ensures ReachesOneOf(a, units, readers) || StrayUnit(a, units, readers)
    ensures !EmptyBlock(a, units)
  {
    hide Decimal;
    match a.audience.kind
    case All =>
      var k :| 0 <= k < |units| && units[k].building == a.building;
      assert Reaches(a, units[k], readers);
    case Block =>
      var v := a.audience.value.value;
      assert BlockAt(units, |units|, a.building, v);
      var k :| 0 <= k < |units| && units[k].building == a.building && units[k].block == Some(v);
      assert Reaches(a, units[k], readers);
    case Floor =>
      var v := a.audience.value.value;
      assert FloorAt(units, |units|, a.building, v);
      var k :| 0 <= k < |units| && units[k].building == a.building && Decimal(units[k].floor) == v;
      assert Reaches(a, units[k], readers);
    case Unit =>
      var id := readers.uuid(a.audience.value.value).value;
      if k :| 0 <= k < |units| && units[k].id == id && units[k].building == a.building {
        assert Reaches(a, units[k], readers);
      }
  }

  lemma DecisionIsComplete(index: Index, a: Announcement, units: seq<UnitInfo>, readers: Readers)
    requires Indexes(index, units, |units|) && ReachesOneOf(a, units, readers)
    ensures !StrayUnit(a, units, readers)
    ensures Decision(index, a, readers) || EmptyBlock(a, units)
  {
    hide Decimal;
    var k :| 0 <= k < |units| && Reaches(a, units[k], readers);
    assert units[k].building == a.building;
    if a.audience.kind == Block && a.audience.value.value != "" {
      assert BlockAt(units, |units|, a.building, a.audience.value.value);
    }
    if a.audience.kind == Floor {
      assert FloorAt(units, |units|, a.building, a.audience.value.value);
    }
  }

  /** For every announcement and every resident: the index decides as the specification does if and only if the
      audience is of neither of these two shapes. */
  lemma IndexDecidesIff(index: Index, a: Announcement, units: seq<UnitInfo>, readers: Readers)
    requires Indexes(index, units, |units|)
    ensures (Decision(index, a, readers) <==> ReachesOneOf(a, units, readers))
            <==> !EmptyBlock(a, units) && !StrayUnit(a, units, readers)
  {
    hide Indexes;
    if Decision(index, a, readers) {
      DecisionIsSound(index, a, units, readers);
    }
    if ReachesOneOf(a, units, readers) {
      DecisionIsComplete(index, a, units, readers);
    }
    ShapesDiffer(index, a, units, readers);
  }

  lemma ShapesDiffer(index: Index, a: Announcement, units: seq<UnitInfo>, readers: Readers)
    requires Indexes(index, units, |units|)
    ensures EmptyBlock(a, units) ==> ReachesOneOf(a, units, readers) && !Decision(index, a, readers)
    ensures StrayUnit(a, units, readers) ==> Decision(index, a, readers) && !ReachesOneOf(a, units, readers)
  {
    hide Decimal;
    if EmptyBlock(a, units) {
      var k :| 0 <= k < |units| && units[k].building == a.building && units[k].block == Some("");
      assert Reaches(a, units[k], readers);
      assert !BlockAt(units, |units|, a.building, "");
    }
  }

  /** Normalised announcements are of neither shape, also when their unit was deleted later. */
  lemma IndexMeetsSpecification(
    index: Index, a: Announcement, units: seq<UnitInfo>, register: map<Id, UnitInfo>, readers: Readers)
    requires Indexes(index, units, |units|) && Registered(units, register) && Normal(a, register, readers)
    ensures Decision(index, a, readers) <==> ReachesOneOf(a, units, readers)
  {
    IndexDecidesIff(index, a, units, readers);
    hide Indexes, Decision, ReachesOneOf, Decimal;
  }

  // ----- The resident's list

  function VisibleOf(table: seq<Announcement>, units: seq<UnitInfo>, readers: Readers, now: int): seq<Announcement> {
    if table == [] then []
    else
      var last := table[|table| - 1];
      VisibleOf(table[..|table| - 1], units, readers, now) + if Visible(last, units, readers, now) then [last] else []
  }

  ghost predicate AllNormal(table: seq<Announcement>, register: map<Id, UnitInfo>, readers: Readers) {
    forall i :: 0 <= i < |table| ==> Normal(table[i], register, readers)
  }

  /** The announcements a resident sees, in the order of the table (newest first). */
  method VisibleAnnouncements(
    table: seq<Announcement>, units: seq<UnitInfo>, ghost register: map<Id, UnitInfo>, readers: Readers, now: int)
    returns (visible: seq<Announcement>)
    requires AllNormal(table, register, readers) && Registered(units, register)
    ensures visible == VisibleOf(table, units, readers, now)
  {
    hide Normal, Registered, ReachesOneOf, IndexSays, Indexes;
    var index := BuildIndex(units);
    visible := [];
    for i := 0 to |table|
      invariant visible == VisibleOf(table[..i], units, readers, now)
    {
      var a := table[i];
      assert table[..i + 1][..i] == table[..i];
      IndexMeetsSpecification(index, a, units, register, readers);
      if InWindow(a, now) && Decision(index, a, readers) {
        visible := visible + [a];
      }
    }
    assert table[..|table|] == table;
  }

  method IsVisible(
    a: Announcement, units: seq<UnitInfo>, ghost register: map<Id, UnitInfo>, readers: Readers, now: int)
    returns (visible: bool)
    requires Normal(a, register, readers) && Registered(units, register)
    ensures visible <==> Visible(a, units, readers, now)
  {
    hide Normal, Registered, ReachesOneOf, IndexSays, Indexes;
    if a.publishAt.Some? && a.publishAt.value > now {
      return false;
    }
    if a.expireAt.Some? && !(a.expireAt.value > now) {
      return false;
    }
    var index := BuildIndex(units);
    IndexMeetsSpecification(index, a, units, register, readers);
    if a.building !in index.buildings {
      return false;
    }
    visible := IndexSays(index, a, readers);
  }

  /** An announcement is in the list exactly when it is visible on its own. */
  lemma {:induction false} ListedIffVisible(
    table: seq<Announcement>, units: seq<UnitInfo>, readers: Readers, now: int, a: Announcement)
    ensures a in VisibleOf(table, units, readers, now) <==> a in table && Visible(a, units, readers, now)
  {
    hide Visible;
    if table != [] {
      ListedIffVisible(table[..|table| - 1], units, readers, now, a);
      assert table == table[..|table| - 1] + [table[|table| - 1]];
    }
  }

  /** `shown` is what stands at the places of the visible announcements, all of them and in the order of the table. */
  ghost predicate ShownAt(
    table: seq<Announcement>, shown: seq<Announcement>, places: seq<int>, units: seq<UnitInfo>, readers: Readers, now: int)
  {
    && |shown| == |places|
    && (forall i :: 0 <= i < |places| ==> 0 <= places[i] < |table| && shown[i] == table[places[i]])
    && (forall i, j :: 0 <= i < j < |places| ==> places[i] < places[j])
    && (forall k :: 0 <= k < |table| ==> (k in places <==> Visible(table[k], units, readers, now)))
  }

  lemma ShownNext(
    table: seq<Announcement>, shown: seq<Announcement>, places: seq<int>, units: seq<UnitInfo>, readers: Readers, now: int)
    requires table != [] && ShownAt(table[..|table| - 1], shown, places, units, readers, now)
    ensures var last := |table| - 1;
            if Visible(table[last], units, readers, now)
            then ShownAt(table, shown + [table[last]], places + [last], units, readers, now)
            else ShownAt(table, shown, places, units, readers, now)
  {
    hide Visible;
    var last := |table| - 1;
    assert last !in places;
    assert forall k :: 0 <= k < last ==> table[..last][k] == table[k];
  }

  /** The list holds every visible announcement of the table once for each place, in the order of the table. */
  lemma {:induction false} ListedInOrder(table: seq<Announcement>, units: seq<UnitInfo>, readers: Readers, now: int)
    returns (places: seq<int>)
    ensures ShownAt(table, VisibleOf(table, units, readers, now), places, units, readers, now)
  {
    hide Visible;
    places := [];
    if table != [] {
      hide ShownAt;
      var last := |table| - 1;
      var before := ListedInOrder(table[..last], units, readers, now);
      ShownNext(table, VisibleOf(table[..last], units, readers, now), before, units, readers, now);
      places := if Visible(table[last], units, readers, now) then before + [last] else before;
      assert VisibleOf(table[..last], units, readers, now) + [] == VisibleOf(table[..last], units, readers, now);
    }
  }

  /** When one announcement expires as another to the same audience is published, exactly one of the two is visible to
      a resident whom they reach, from the first one's publication until the second one's expiry. */
  lemma Handover(a: Announcement, b: Announcement, units: seq<UnitInfo>, readers: Readers, at: int, now: int)
    requires a.building == b.building && a.audience == b.audience && ReachesOneOf(a, units, readers)
    requires a.expireAt == Some(at) == b.publishAt
    requires a.publishAt.Some? && b.expireAt.Some? && a.publishAt.value <= at <= b.expireAt.value
    ensures a.publishAt.value <= now < b.expireAt.value ==>
              (Visible(a, units, readers, now) <==> !Visible(b, units, readers, now))
    ensures now < a.publishAt.value || now >= b.expireAt.value ==>
              !Visible(a, units, readers, now) && !Visible(b, units, readers, now)
    ensures now == at < b.expireAt.value ==> Visible(b, units, readers, now)
  {
    hide Reaches;
    var k :| 0 <= k < |units| && Reaches(a, units[k], readers);
    SameReach(a, b, units[k], readers);
  }

  lemma SameReach(a: Announcement, b: Announcement, unit: UnitInfo, readers: Readers)
    requires a.building == b.building && a.audience == b.audience
    ensures Reaches(a, unit, readers) <==> Reaches(b, unit, readers)
  {
  }

  // ----- Notification targets

  datatype User = User(phone: string, active: bool, deleted: bool)

  datatype Person = Person(phone: string, deleted: bool)

  datatype Occupancy = Occupancy(person: Id, unit: Id, ended: bool)

  /** The joined tables; units that were deleted are not in `units`. */
  datatype People = People(
    users: map<Id, User>, persons: map<Id, Person>, occupancies: seq<Occupancy>, units: map<Id, UnitInfo>)

  /** An active occupancy of this phone's holder. */
  predicate Occupies(p: People, phone: string, o: Occupancy) {
    !o.ended && o.unit in p.units && o.person in p.persons
    && !p.persons[o.person].deleted && p.persons[o.person].phone == phone
  }

  /** The units of a resident. */
  function ResidentUnits(p: People, phone: string, n: nat): (units: seq<UnitInfo>)
    requires n <= |p.occupancies|
  {
    if n == 0 then []
    else
      var o := p.occupancies[n - 1];
      ResidentUnits(p, phone, n - 1) + if Occupies(p, phone, o) then [p.units[o.unit]] else []
  }

  /** The audience filter of the query; a missing block reads as the empty text. */
  predicate QueryMatches(a: Announcement, unit: UnitInfo, readers: Readers) {
    && unit.building == a.building
    && match a.audience.kind
       case All => true
       case Block => a.audience.value.Some? && (if unit.block.Some? then unit.block.value else "") == a.audience.value.value
       case Floor => a.audience.value.Some? && Decimal(unit.floor) == a.audience.value.value
       case Unit => a.audience.value.Some? && readers.uuid(a.audience.value.value) == Some(unit.id)
  }

  /** The users to notify, as the query joins them. */
  ghost function TargetUserIds(p: People, a: Announcement, readers: Readers): set<Id> {
    set u | u in p.users && p.users[u].active && !p.users[u].deleted
      && exists k :: 0 <= k < |p.occupancies| && Occupies(p, p.users[u].phone, p.occupancies[k])
           && QueryMatches(a, p.units[p.occupancies[k].unit], readers)
  }

  /** The query takes an empty block value for units without a block too. */
  predicate NoBlock(a: Announcement, unit: UnitInfo) {
    a.audience == Audience(Block, Some("")) && unit.building == a.building && unit.block == None
  }

  lemma QueryMatchesIff(a: Announcement, unit: UnitInfo, readers: Readers)
    ensures QueryMatches(a, unit, readers) <==> Reaches(a, unit, readers) || NoBlock(a, unit)
  {
    hide Decimal;
  }

  lemma {:induction false} UnitsOfOccupancies(p: People, phone: string, n: nat, a: Announcement, readers: Readers)
    requires n <= |p.occupancies|
    ensures ReachesOneOf(a, ResidentUnits(p, phone, n), readers)
       <==> exists k :: 0 <= k < n && Occupies(p, phone, p.occupancies[k])
              && Reaches(a, p.units[p.occupancies[k].unit], readers)
  {
    hide Reaches;
    if n > 0 {
      var before, o := ResidentUnits(p, phone, n - 1), p.occupancies[n - 1];
      UnitsOfOccupancies(p, phone, n - 1, a, readers);
      hide ResidentUnits;
      if Occupies(p, phone, o) {
        ReachesAppend(a, before, p.units[o.unit], readers);
      } else {
        assert before + [] == before;
      }
    }
  }

  lemma ReachesAppend(a: Announcement, units: seq<UnitInfo>, unit: UnitInfo, readers: Readers)
    ensures ReachesOneOf(a, units + [unit], readers) <==> ReachesOneOf(a, units, readers) || Reaches(a, unit, readers)
  {
    hide Reaches;
    if ReachesOneOf(a, units, readers) {
      var k :| 0 <= k < |units| && Reaches(a, units[k], readers);
      assert (units + [unit])[k] == units[k];
    }
    assert (units + [unit])[|units|] == unit;
  }

  /** The user has an active unit without a block in the building of an announcement to the empty block. */
  ghost predicate OnlyByNoBlock(p: People, a: Announcement, phone: string) {
    exists k :: 0 <= k < |p.occupancies| && Occupies(p, phone, p.occupancies[k])
      && NoBlock(a, p.units[p.occupancies[k].unit])
  }

  /** A resident sees what is open now and reaches one of the units that a person with this phone, not deleted, occupies
      without having left, as long as the unit is not deleted. */
  lemma SeenThroughOccupancy(p: People, phone: string, a: Announcement, readers: Readers, now: int)
    ensures Visible(a, ResidentUnits(p, phone, |p.occupancies|), readers, now)
       <==> && (a.publishAt.Some? ==> a.publishAt.value <= now) && (a.expireAt.Some? ==> now < a.expireAt.value)
            && exists k :: 0 <= k < |p.occupancies| && var o := p.occupancies[k];
                 && !o.ended && o.person in p.persons && !p.persons[o.person].deleted
                 && p.persons[o.person].phone == phone && o.unit in p.units && Reaches(a, p.units[o.unit], readers)
  {
    hide Reaches, ReachesOneOf, ResidentUnits;
    UnitsOfOccupancies(p, phone, |p.occupancies|, a, readers);
  }

  /** For every announcement and every active user: inside the window the user is notified exactly when the
      announcement is visible to that user, if and only if it is not to the empty block and reaches the user by a
      unit without a block alone. */
  lemma NotifiedVisibleIff(p: People, a: Announcement, readers: Readers, now: int, user: Id)
    requires user in p.users && p.users[user].active && !p.users[user].deleted && InWindow(a, now)
    ensures var units := ResidentUnits(p, p.users[user].phone, |p.occupancies|);
            (user in TargetUserIds(p, a, readers) <==> Visible(a, units, readers, now))
            <==> !(OnlyByNoBlock(p, a, p.users[user].phone) && !ReachesOneOf(a, units, readers))
  {
    hide Reaches, ReachesOneOf, QueryMatches, NoBlock, ResidentUnits;
    var phone := p.users[user].phone;
    UnitsOfOccupancies(p, phone, |p.occupancies|, a, readers);
    forall k | 0 <= k < |p.occupancies| && Occupies(p, phone, p.occupancies[k])
      ensures var unit := p.units[p.occupancies[k].unit];
              QueryMatches(a, unit, readers) <==> Reaches(a, unit, readers) || NoBlock(a, unit)
    {
      QueryMatchesIff(a, p.units[p.occupancies[k].unit], readers);
    }
    if user in TargetUserIds(p, a, readers) {
      var k :| 0 <= k < |p.occupancies| && Occupies(p, phone, p.occupancies[k])
        && QueryMatches(a, p.units[p.occupancies[k].unit], readers);
      assert NoBlock(a, p.units[p.occupancies[k].unit]) ==> OnlyByNoBlock(p, a, phone);
    }
  }

  /** So for what is stored, which never has an empty block value, notification and visibility coincide. */
  lemma NotifiedIffVisible(p: People, a: Announcement, readers: Readers, now: int, user: Id)
    requires user in p.users && p.users[user].active && !p.users[user].deleted && InWindow(a, now)
    requires a.audience != Audience(Block, Some(""))
    ensures user in TargetUserIds(p, a, readers)
       <==> Visible(a, ResidentUnits(p, p.users[user].phone, |p.occupancies|), readers, now)
  {
    assert forall unit :: !NoBlock(a, unit);
    assert !OnlyByNoBlock(p, a, p.users[user].phone);
    NotifiedVisibleIff(p, a, readers, now, user);
  }

  // ----- Pages

  function PageSize(size: int): (n: nat)
    ensures 1 <= n <= 100
  {
    if size <= 0 || size > 100 then 20 else size
  }

  method ListPage(visible: seq<Announcement>, page: int, size: int) returns (items: seq<Announcement>, total: nat)
    ensures total == |visible| && items == PageOf(visible, page, size)
  {
    total := |visible|;
    var start := ((if page < 1 then 1 else page) - 1) * PageSize(size);
    if start >= |visible| {
      PastTheEnd(visible, page, size);
      return [], total;
    }
    var end := start + PageSize(size);
    if end > |visible| {
      end := |visible|;
    }
    items := visible[start..end];
  }

  /** What a page holds: of `size` consecutive places those that exist. */
  function PageOf(visible: seq<Announcement>, page: int, size: int): seq<Announcement> {
    var start := ((if page < 1 then 1 else page) - 1) * PageSize(size);
    Window(visible, start, start + PageSize(size))
  }

  function Window(s: seq<Announcement>, lo: int, hi: int): seq<Announcement> {
    var first := if lo < 0 then 0 else if lo > |s| then |s| else lo;
    var last := if hi < first then first else if hi > |s| then |s| else hi;
    s[first..last]
  }

  lemma PastTheEnd(visible: seq<Announcement>, page: int, size: int)
    requires ((if page < 1 then 1 else page) - 1) * PageSize(size) >= |visible|
    ensures PageOf(visible, page, size) == []
  {
  }

  function Pages(visible: seq<Announcement>, size: int, n: nat): seq<Announcement> {
    if n == 0 then [] else Pages(visible, size, n - 1) + PageOf(visible, n, size)
  }

  /** How many places the first `n` pages cover. */
  function Covered(size: int, n: nat): nat {
    if n == 0 then 0 else Covered(size, n - 1) + PageSize(size)
  }

  lemma {:induction false} CoveredIs(size: int, n: nat)
    ensures Covered(size, n) == n * PageSize(size)
  {
    if n > 0 {
      CoveredIs(size, n - 1);
    }
  }

  lemma PageIs(visible: seq<Announcement>, size: int, n: nat)
    requires n > 0
    ensures Covered(size, n - 1) <= Covered(size, n)
    ensures PageOf(visible, n, size) == Window(visible, Covered(size, n - 1), Covered(size, n))
  {
    CoveredIs(size, n - 1);
    hide PageSize, Window;
  }

  /** The first pages in a row are the beginning of the list. */
  lemma {:induction false} PagesAreAPrefix(visible: seq<Announcement>, size: int, n: nat)
    ensures Pages(visible, size, n) == Window(visible, 0, Covered(size, n))
  {
    if n > 0 {
      hide PageOf, Window, Covered;
      PagesAreAPrefix(visible, size, n - 1);
      PageIs(visible, size, n);
      JoinWindows(visible, Covered(size, n - 1), Covered(size, n));
    }
  }

  lemma JoinWindows(s: seq<Announcement>, mid: nat, hi: nat)
    requires mid <= hi
    ensures Window(s, 0, mid) + Window(s, mid, hi) == Window(s, 0, hi)
  {
  }

  /** Enough pages give the whole list, each item once and in order. */
  lemma PagesGiveAll(visible: seq<Announcement>, size: int, n: nat)
    requires Covered(size, n) >= |visible|
    ensures Pages(visible, size, n) == visible
  {
    PagesAreAPrefix(visible, size, n);
  }

  /** Where a place of the list is: counting places from zero and pages from one, on the page of its quotient at the place
      of its remainder. Sizes from 1 to 100 are taken as they are, any other as 20; pages below 1 as the first. */
  lemma PlaceOnPage(visible: seq<Announcement>, page: int, size: int, i: nat)
    ensures var n := if 1 <= size <= 100 then size else 20;
            var from := (if page < 1 then 0 else page - 1) * n;
            && |PageOf(visible, page, size)| <= n
            && (i < |PageOf(visible, page, size)| <==> i < n && from + i < |visible|)
            && (i < |PageOf(visible, page, size)| ==> PageOf(visible, page, size)[i] == visible[from + i])
  {
    hide Window;
    var n := PageSize(size);
    var from := (if page < 1 then 0 else page - 1) * n;
    assert PageOf(visible, page, size) == Window(visible, from, from + n);
    WindowPlaces(visible, from, n, i);
  }

  lemma WindowPlaces(s: seq<Announcement>, from: nat, n: nat, i: nat)
    ensures var window := Window(s, from, from + n);
            && |window| <= n && (i < |window| <==> i < n && from + i < |s|)
            && (i < |window| ==> window[i] == s[from + i])
  {
  }
}
