/** The cache of object URLs (web/src/lib/files/fileCache.ts): a map in order of last use, whose
    evicted URLs are revoked once their download has finished. Failed downloads are left out. */
module FileCache {

  const MAX_CACHED: nat := 24

  type Id = int

  /** The download of a file; its URL exists once the download has finished. */
  type Download = int

  datatype Entry = Entry(id: Id, download: Download)

  /** `entries` in insertion order, `next` the next download, `attached` the revocations promised by
      eviction or clearing, `revoked` those carried out. */
  datatype Cache = Cache(
    entries: seq<Entry>, next: Download, finished: set<Download>,
    attached: multiset<Download>, revoked: multiset<Download>)

  const EMPTY_CACHE := Cache([], 0, {}, multiset{}, multiset{})

  function Ids(entries: seq<Entry>): (ids: seq<Id>)
    ensures |ids| == |entries| && forall i :: 0 <= i < |ids| ==> ids[i] == entries[i].id
  {
    seq(|entries|, i requires 0 <= i < |entries| => entries[i].id)
  }

  function Downloads(entries: seq<Entry>): (ds: seq<Download>)
    ensures |ds| == |entries| && forall i :: 0 <= i < |ds| ==> ds[i] == entries[i].download
  {
    seq(|entries|, i requires 0 <= i < |entries| => entries[i].download)
  }

  /** Where the id is cached; the number of entries if it is not. */
  function Find(entries: seq<Entry>, id: Id): (k: nat)
    ensures k <= |entries| && (k < |entries| ==> entries[k].id == id)
    ensures forall i :: 0 <= i < k ==> entries[i].id != id
  {
    if entries == [] || entries[0].id == id then 0 else 1 + Find(entries[1..], id)
  }

  // ----- Steps

  datatype Step = Lookup(id: Id) | Clear | Finish(download: Download) | Revoke(download: Download)

  function Overflow(entries: seq<Entry>): nat {
    if |entries| > MAX_CACHED then |entries| - MAX_CACHED else 0
  }

  function LookupIn(c: Cache, id: Id): Cache {
    var k := Find(c.entries, id);
    if k < |c.entries| then c.(entries := c.entries[..k] + c.entries[k + 1..] + [c.entries[k]])
    else
      var grown := c.entries + [Entry(id, c.next)];
      var n := Overflow(grown);
      c.(entries := grown[n..], next := c.next + 1, attached := c.attached + multiset(Downloads(grown[..n])))
  }

  function ClearAll(c: Cache): Cache {
    c.(entries := [], attached := c.attached + multiset(Downloads(c.entries)))
  }

  function Apply(c: Cache, step: Step): Cache {
    match step
    case Lookup(id) => LookupIn(c, id)
    case Clear => ClearAll(c)
    case Finish(d) => if d < c.next then c.(finished := c.finished + {d}) else c
    case Revoke(d) =>
      if d in c.finished && c.revoked[d] < c.attached[d] then c.(revoked := c.revoked + multiset{d}) else c
  }

  function Run(steps: seq<Step>): Cache {
    if steps == [] then EMPTY_CACHE else Apply(Run(steps[..|steps| - 1]), steps[|steps| - 1])
  }

  // ----- Every URL is revoked once, and none while it is cached

  ghost predicate Distinct(entries: seq<Entry>) {
    forall i, j :: 0 <= i < j < |entries| ==>
      entries[i].id != entries[j].id && entries[i].download != entries[j].download
  }

  ghost predicate Holds(entries: seq<Entry>, d: Download) {
    exists i :: 0 <= i < |entries| && entries[i].download == d
  }

  ghost predicate Inv(c: Cache) {
    && Distinct(c.entries) && |c.entries| <= MAX_CACHED
    && (forall i :: 0 <= i < |c.entries| ==> 0 <= c.entries[i].download < c.next) && c.next >= 0
    && (forall d :: c.attached[d] == if 0 <= d < c.next && !Holds(c.entries, d) then 1 else 0)
    && (forall d :: c.revoked[d] <= c.attached[d])
    && (forall d :: d in c.revoked ==> d in c.finished)
  }

  lemma {:induction false} CountDistinct(entries: seq<Entry>, d: Download)
    requires Distinct(entries)
    ensures multiset(Downloads(entries))[d] == if Holds(entries, d) then 1 else 0
  {
    if entries != [] {
      var last := |entries| - 1;
      CountDistinct(entries[..last], d);
      assert Downloads(entries) == Downloads(entries[..last]) + [entries[last].download];
      if Holds(entries[..last], d) {
        var i :| 0 <= i < last && entries[..last][i].download == d;
        assert entries[i].download == d;
      }
      assert entries[last].download == d ==> Holds(entries, d);
    }
  }

  lemma HoldsParts(a: seq<Entry>, b: seq<Entry>, d: Download)
    ensures Holds(a + b, d) <==> Holds(a, d) || Holds(b, d)
  {
    if Holds(a, d) {
      var i :| 0 <= i < |a| && a[i].download == d;
      assert (a + b)[i].download == d;
    }
    if Holds(b, d) {
      var i :| 0 <= i < |b| && b[i].download == d;
      assert (a + b)[|a| + i].download == d;
    }
    if Holds(a + b, d) {
      var i :| 0 <= i < |a + b| && (a + b)[i].download == d;
      assert if i < |a| then a[i].download == d else b[i - |a|].download == d;
    }
  }

  lemma HitKeeps(c: Cache, id: Id)
    requires Inv(c) && Find(c.entries, id) < |c.entries|
    ensures Inv(LookupIn(c, id))
  {
    var k := Find(c.entries, id);
    var after := LookupIn(c, id).entries;
    MovedDistinct(c.entries, k);
    forall d
      ensures Holds(after, d) <==> Holds(c.entries, d)
    {
      MovedHolds(c.entries, k, d);
    }
    hide Holds, Distinct;
  }

  /** Moving an entry to the end keeps the entries distinct, and which downloads they hold. */
  lemma MovedDistinct(entries: seq<Entry>, k: nat)
    requires Distinct(entries) && k < |entries|
    ensures Distinct(entries[..k] + entries[k + 1..] + [entries[k]])
  {
  }

  /** Where the entry at place `i` was before the entry at place `k` moved to the end. */
  function MovedFrom(n: nat, k: nat, i: nat): (j: nat)
    requires k < n && i < n
    ensures j < n
  {
    if i < k then i else if i < n - 1 then i + 1 else k
  }

  function MovedTo(n: nat, k: nat, j: nat): (i: nat)
    requires k < n && j < n
    ensures i < n && MovedFrom(n, k, i) == j
  {
    if j < k then j else if j == k then n - 1 else j - 1
  }

  lemma MovedHolds(entries: seq<Entry>, k: nat, d: Download)
    requires k < |entries|
    ensures Holds(entries[..k] + entries[k + 1..] + [entries[k]], d) <==> Holds(entries, d)
  {
    var front, back, hit := entries[..k], entries[k + 1..], [entries[k]];
    assert entries == front + hit + back;
    HoldsParts(front, back, d);
    HoldsParts(front + back, hit, d);
    HoldsParts(front, hit, d);
    HoldsParts(front + hit, back, d);
  }

  lemma MissKeeps(c: Cache, id: Id)
    requires Inv(c) && Find(c.entries, id) == |c.entries|
    ensures Inv(LookupIn(c, id))
  {
    var grown := c.entries + [Entry(id, c.next)];
    var n := Overflow(grown);
    assert Distinct(grown) && Distinct(grown[..n]) && Distinct(grown[n..]);
    var after := LookupIn(c, id);
    forall d
      ensures after.attached[d] == if 0 <= d < after.next && !Holds(after.entries, d) then 1 else 0
    {
      MissAttached(c, Entry(id, c.next), d);
    }
    hide Holds, Distinct, Find;
    assert forall d :: c.attached[d] <= after.attached[d];
  }

  lemma MissAttached(c: Cache, added: Entry, d: Download)
    requires Inv(c) && added.download == c.next && forall i :: 0 <= i < |c.entries| ==> c.entries[i].id != added.id
    ensures var grown := c.entries + [added];
            var n := Overflow(grown);
            c.attached[d] + multiset(Downloads(grown[..n]))[d]
            == if 0 <= d < c.next + 1 && !Holds(grown[n..], d) then 1 else 0
  {
    var grown := c.entries + [added];
    var n := Overflow(grown);
    assert Distinct(grown) && Distinct(grown[..n]);
    CountDistinct(grown[..n], d);
    HoldsParts(c.entries, [added], d);
    HoldsParts(grown[..n], grown[n..], d);
    assert grown == grown[..n] + grown[n..];
    assert Holds([added], d) <==> d == c.next by {
      assert [added][0].download == c.next;
    }
    NotBoth(grown, n, d);
    assert Holds(c.entries, d) ==> 0 <= d < c.next;
    hide Holds, Distinct, Downloads;
  }

  lemma NotBoth(entries: seq<Entry>, n: nat, d: Download)
    requires Distinct(entries) && n <= |entries|
    ensures !(Holds(entries[..n], d) && Holds(entries[n..], d))
  {
  }

  lemma ClearKeeps(c: Cache)
    requires Inv(c)
    ensures Inv(ClearAll(c))
  {
    forall d
      ensures ClearAll(c).attached[d] == if 0 <= d < c.next && !Holds([], d) then 1 else 0
    {
      CountDistinct(c.entries, d);
    }
  }

  lemma StepKeeps(c: Cache, step: Step)
    requires Inv(c)
    ensures Inv(Apply(c, step))
  {
    match step
    case Lookup(id) =>
      if Find(c.entries, id) < |c.entries| {
        HitKeeps(c, id);
      } else {
        MissKeeps(c, id);
      }
    case Clear => ClearKeeps(c);
    case _ =>
  }

  lemma {:induction false} RunKeeps(steps: seq<Step>)
    ensures Inv(Run(steps))
  {
    if steps != [] {
      RunKeeps(steps[..|steps| - 1]);
      hide Inv, Apply;
      StepKeeps(Run(steps[..|steps| - 1]), steps[|steps| - 1]);
    }
  }

  /** In every reachable state: the URL of a cached file has not been revoked, every other URL has been
      revoked at most once, and exactly once when its promised revocation has been carried out. */
  lemma RevokedExactlyOnce(steps: seq<Step>, d: Download)
    ensures var c := Run(steps);
            && (Holds(c.entries, d) ==> c.revoked[d] == 0)
            && c.revoked[d] <= 1
            && (0 <= d < c.next && !Holds(c.entries, d) && c.revoked[d] == c.attached[d] ==> c.revoked[d] == 1)
            && (0 <= d < c.next && !Holds(c.entries, d) && d in c.finished ==> Apply(c, Revoke(d)).revoked[d] == 1)
  {
    RunKeeps(steps);
  }

  /** A lookup leaves its id as the most recent one, with a URL that has not been revoked. */
  lemma LookupShows(c: Cache, id: Id)
    requires Inv(c)
    ensures var after := LookupIn(c, id);
            && after.entries != [] && after.entries[|after.entries| - 1].id == id
            && after.revoked[after.entries[|after.entries| - 1].download] == 0
  {
  }

  /** A lookup of a cached id downloads nothing and shows the URL it had; any other starts one download. Every other entry keeps
      its URL, and one is dropped, the oldest, exactly when a new one does not fit. */
  lemma LookupEffect(c: Cache, id: Id, e: Entry)
    requires Inv(c)
    ensures var after := LookupIn(c, id);
            var cached := exists x :: x in c.entries && x.id == id;
            && after.next == c.next + (if cached then 0 else 1)
            && after.finished == c.finished && after.revoked == c.revoked
            && (e in c.entries && e.id == id ==> e in after.entries)
            && (e in after.entries ==> e in c.entries || (!cached && e == Entry(id, c.next)))
            && (e in c.entries && e !in after.entries <==> !cached && |c.entries| == 24 && e == c.entries[0])
            && (e in c.entries && e !in after.entries ==> after.attached[e.download] == 1)
            && (cached ==> after.attached == c.attached)
  {
    var k := Find(c.entries, id);
    if k < |c.entries| {
      assert c.entries[k] in c.entries;
      SplitAt(c.entries, k, e);
    } else {
      assert forall x :: x in c.entries ==> x.id != id;
      MissKeeps(c, id);
      Dropped(c, id, e);
    }
    hide Inv, Holds, Downloads;
  }

  lemma Dropped(c: Cache, id: Id, e: Entry)
    requires Inv(c) && Inv(LookupIn(c, id)) && Find(c.entries, id) == |c.entries|
    ensures var after := LookupIn(c, id);
            && (e in after.entries ==> e in c.entries || e == Entry(id, c.next))
            && (e in c.entries && e !in after.entries <==> |c.entries| == 24 && e == c.entries[0])
            && (e in c.entries && e !in after.entries ==> after.attached[e.download] == 1)
  {
    hide Downloads;
    var grown := c.entries + [Entry(id, c.next)];
    if |c.entries| == 24 {
      SplitAt(c.entries, 0, e);
      assert grown[1..] == c.entries[1..] + [Entry(id, c.next)];
      assert Holds(grown[1..], c.entries[0].download) ==> false;
    } else {
      assert grown[0..] == grown;
    }
  }

  /** Whatever has left the cache can be let go: once its download has finished, its URL is revoked, once, and the cache stays as
      it is. */
  lemma LetGo(c: Cache, d: Download)
    requires Inv(c) && 0 <= d < c.next && !Holds(c.entries, d)
    ensures var after := Apply(Apply(c, Finish(d)), Revoke(d));
            && after.revoked == c.revoked[d := 1] && after.entries == c.entries && after.next == c.next
            && Apply(Apply(after, Finish(d)), Revoke(d)).revoked == after.revoked
  {
    assert c.revoked[d] <= 1;
    hide Distinct;
  }

  lemma SplitAt(entries: seq<Entry>, k: nat, e: Entry)
    requires k < |entries| && Distinct(entries)
    ensures e in entries <==> e in entries[..k] || e in entries[k + 1..] || e == entries[k]
    ensures entries[k] !in entries[..k] && entries[k] !in entries[k + 1..]
  {
    assert entries == entries[..k] + [entries[k]] + entries[k + 1..];
  }

  // ----- The cache is the most recently used ids

  /** The ids looked up since the last clear. */
  function History(steps: seq<Step>): seq<Id> {
    if steps == [] then []
    else
      var before := History(steps[..|steps| - 1]);
      match steps[|steps| - 1]
      case Lookup(id) => before + [id]
      case Clear => []
      case _ => before
  }

  /** When the id was last looked up; -1 if never. */
  function LastUse(history: seq<Id>, id: Id): int {
    if history == [] then -1
    else if history[|history| - 1] == id then |history| - 1
    else LastUse(history[..|history| - 1], id)
  }

  lemma {:induction false} LastUseIs(history: seq<Id>, id: Id)
    ensures -1 <= LastUse(history, id) < |history|
    ensures LastUse(history, id) >= 0 ==> history[LastUse(history, id)] == id
    ensures forall i :: LastUse(history, id) < i < |history| ==> history[i] != id
  {
    if history != [] {
      LastUseIs(history[..|history| - 1], id);
    }
  }

  /** The ids are distinct, in order of last use, and nothing used after the first of them is missing. */
  ghost predicate MostRecent(ids: seq<Id>, history: seq<Id>) {
    && (forall i :: 0 <= i < |ids| ==> LastUse(history, ids[i]) >= 0)
    && (forall i, j :: 0 <= i < j < |ids| ==> LastUse(history, ids[i]) < LastUse(history, ids[j]))
    && (forall id :: LastUse(history, id) >= 0 && id !in ids ==>
          |ids| == MAX_CACHED && forall i :: 0 <= i < |ids| ==> LastUse(history, id) < LastUse(history, ids[i]))
  }

  /** A lookup makes its id the most recent one and leaves the order of the others alone. */
  ghost predicate Used(history: seq<Id>, id: Id, after: seq<Id>) {
    forall other ::
      && LastUse(after, other) == (if other == id then |history| else LastUse(history, other))
      && LastUse(history, other) < |history|
  }

  lemma UseMore(history: seq<Id>, id: Id)
    ensures Used(history, id, history + [id])
  {
    assert (history + [id])[..|history|] == history;
    forall other
      ensures LastUse(history, other) < |history|
    {
      LastUseIs(history, other);
    }
  }

  lemma HitRecent(ids: seq<Id>, history: seq<Id>, after: seq<Id>, id: Id, k: nat)
    requires MostRecent(ids, history) && k < |ids| && ids[k] == id && Used(history, id, after)
    ensures MostRecent(ids[..k] + ids[k + 1..] + [id], after)
  {
    hide LastUse;
    var n := |ids|;
    var moved := ids[..k] + ids[k + 1..] + [id];
    forall i | 0 <= i < n
      ensures moved[i] == ids[MovedFrom(n, k, i)]
      ensures LastUse(after, moved[i]) == if i == n - 1 then |history| else LastUse(history, moved[i])
    {
      assert i < n - 1 ==> LastUse(history, ids[MovedFrom(n, k, i)]) != LastUse(history, ids[k]);
    }
    forall j | 0 <= j < n
      ensures ids[j] in moved
    {
      assert moved[MovedTo(n, k, j)] == ids[j];
    }
    forall other | other !in moved
      ensures other !in ids && other != id
    {
      assert moved[n - 1] == id;
    }
    hide Used;
    HitOrder(ids, history, after, moved, k);
  }

  lemma HitOrder(ids: seq<Id>, history: seq<Id>, after: seq<Id>, moved: seq<Id>, k: nat)
    requires MostRecent(ids, history) && k < |ids| && |moved| == |ids|
    requires forall i :: 0 <= i < |ids| ==>
      && moved[i] == ids[MovedFrom(|ids|, k, i)]
      && LastUse(after, moved[i]) == (if i == |ids| - 1 then |history| else LastUse(history, moved[i]))
    requires forall other :: LastUse(history, other) < |history|
    requires forall other :: other !in moved ==> other !in ids && LastUse(after, other) == LastUse(history, other)
    ensures MostRecent(moved, after)
  {
    hide LastUse;
  }

  lemma MissRecent(ids: seq<Id>, history: seq<Id>, after: seq<Id>, id: Id, n: nat)
    requires MostRecent(ids, history) && |ids| <= MAX_CACHED && id !in ids && Used(history, id, after)
    requires n == if |ids| == MAX_CACHED then 1 else 0
    ensures MostRecent((ids + [id])[n..], after)
  {
    hide LastUse;
    var kept := (ids + [id])[n..];
    assert forall i :: 0 <= i < |kept| ==> kept[i] == if i + n < |ids| then ids[i + n] else id;
    assert kept[|kept| - 1] == id;
    forall other | other in ids
      ensures other in kept || (n == 1 && other == ids[0])
    {
      var i :| 0 <= i < |ids| && ids[i] == other;
      assert i >= n ==> kept[i - n] == other;
    }
  }

  lemma LookupRecent(c: Cache, history: seq<Id>, id: Id)
    requires MostRecent(Ids(c.entries), history) && |c.entries| <= MAX_CACHED
    ensures MostRecent(Ids(LookupIn(c, id).entries), history + [id]) && |LookupIn(c, id).entries| <= MAX_CACHED
  {
    hide MostRecent, Used;
    var k := Find(c.entries, id);
    var ids := Ids(c.entries);
    UseMore(history, id);
    if k < |c.entries| {
      HitRecent(ids, history, history + [id], id, k);
      assert Ids(LookupIn(c, id).entries) == ids[..k] + ids[k + 1..] + [id];
    } else {
      var n := Overflow(c.entries + [Entry(id, c.next)]);
      MissRecent(ids, history, history + [id], id, n);
      assert Ids(LookupIn(c, id).entries) == (ids + [id])[n..];
    }
  }

  /** After any run the cache holds exactly the 24 most recently used ids since the last clear, least
      recently used first. */
  lemma {:induction false} CacheIsMostRecent(steps: seq<Step>)
    ensures MostRecent(Ids(Run(steps).entries), History(steps)) && |Run(steps).entries| <= MAX_CACHED
  {
    if steps != [] {
      var before := steps[..|steps| - 1];
      CacheIsMostRecent(before);
      RunKeeps(before);
      var c := Run(before);
      hide MostRecent, Used, Distinct;
      match steps[|steps| - 1]
      case Lookup(id) =>
        LookupRecent(c, History(before), id);
      case Clear => NothingRecent();
      case _ =>
    } else {
      NothingRecent();
    }
  }

  lemma NothingRecent()
    ensures MostRecent(Ids([]), [])
  {
  }

  // ----- The cache as it runs

  class ObjectUrls {
    var entries: seq<Entry>
    var next: Download
    var finished: set<Download>
    var attached: multiset<Download>
    var revoked: multiset<Download>

    ghost function State(): Cache
      reads this
    {
      Cache(entries, next, finished, attached, revoked)
    }

    constructor ()
      ensures State() == EMPTY_CACHE
    {
      entries, next, finished, attached, revoked := [], 0, {}, multiset{}, multiset{};
    }

    /** The download that shows the file: the cached one, made the most recent, or a new one. */
    method GetFileObjectUrl(id: Id) returns (download: Download)
      requires Inv(State())
      modifies this
      ensures State() == LookupIn(old(State()), id) && Inv(State())
      ensures entries != [] && entries[|entries| - 1] == Entry(id, download) && revoked[download] == 0
    {
      StepKeeps(State(), Lookup(id));
      LookupShows(State(), id);
      hide Inv, Downloads;
      var k := Find(entries, id);
      if k < |entries| {
        var existing := entries[k];
        entries := entries[..k] + entries[k + 1..];
        entries := entries + [existing];
      } else {
        FetchAsObjectUrl(id);
      }
      download := entries[|entries| - 1].download;
    }

    /** Starts a download and caches it before it has finished. */
    method FetchAsObjectUrl(id: Id)
      requires Find(entries, id) == |entries|
      modifies this
      ensures State() == LookupIn(old(State()), id)
    {
      hide Find, Downloads;
      entries := entries + [Entry(id, next)];
      next := next + 1;
      EvictOverflow();
    }

    method EvictOverflow()
      modifies this`entries, this`attached
      ensures entries == old(entries)[Overflow(old(entries))..]
      ensures attached == old(attached) + multiset(Downloads(old(entries)[..Overflow(old(entries))]))
    {
      ghost var n := 0;
      while |entries| > MAX_CACHED
        invariant 0 <= n <= Overflow(old(entries)) && entries == old(entries)[n..]
        invariant attached == old(attached) + multiset(Downloads(old(entries)[..n]))
      {
        var oldest := entries[0];
        entries := entries[1..];
        attached := attached + multiset{oldest.download};
        assert Downloads(old(entries)[..n + 1]) == Downloads(old(entries)[..n]) + [oldest.download];
        n := n + 1;
      }
    }

    method ClearFileObjectUrls()
      requires Inv(State())
      modifies this
      ensures State() == ClearAll(old(State())) && Inv(State())
    {
      StepKeeps(State(), Clear);
      hide Inv, Downloads;
      RevokeCached();
      entries := [];
    }

    method RevokeCached()
      modifies this`attached
      ensures attached == old(attached) + multiset(Downloads(entries))
    {
      for i := 0 to |entries|
        invariant attached == old(attached) + multiset(Downloads(entries[..i]))
      {
        assert Downloads(entries[..i + 1]) == Downloads(entries[..i]) + [entries[i].download];
        attached := attached + multiset{entries[i].download};
      }
      assert entries[..|entries|] == entries;
    }
  }
}
