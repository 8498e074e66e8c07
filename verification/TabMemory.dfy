/**
 * Which item a tab picked on page one of an identifier-first sign-in (tabmemory.js): a map that is
 * cleaned lazily, and what it answers in terms of what happened.
 */
module TabMemory {
  import opened Basics

  const TTL_MS := 60_000

  type TabId = int

  datatype Entry = Entry(itemId: string, origin: string, expiresAt: int)

  type Entries = map<TabId, Entry>

  // ---- Sites ----

  datatype Parts = Parts(scheme: string, host: string)

  /** Where `pattern` first occurs in `s`. */
  function IndexOf(s: string, pattern: string): (i: Option<nat>)
    ensures i.Some? ==> i.value <= |s| && pattern <= s[i.value..]
  {
    if pattern <= s then Some(0)
    else if s == "" then None
    else match IndexOf(s[1..], pattern)
      case Some(k) => Some(k + 1)
      case None => None
  }

  /** An origin's scheme and the rest of it, or nothing if it is not one. */
  function PartsOf(origin: string): Option<Parts> {
    match IndexOf(origin, "://")
    case Some(marker) =>
      if marker == 0 || marker + 3 == |origin| then None
      else Some(Parts(origin[..marker], origin[marker + 3..]))
    case None => None
  }

  /** Whether an entry made at `remembered` may be used at `current`: the same origin or a subdomain of it. */
  predicate SameSite(remembered: string, current: string) {
    var a, b := PartsOf(remembered), PartsOf(current);
    && a.Some? && b.Some?
    && a.value.scheme == b.value.scheme
    && (a.value.host == b.value.host || EndsWith(b.value.host, "." + a.value.host))
  }

  lemma PartsDetermineOrigin(origin: string)
    requires PartsOf(origin).Some?
    ensures origin == PartsOf(origin).value.scheme + "://" + PartsOf(origin).value.host
  {
    var marker := IndexOf(origin, "://").value;
    assert origin[marker..][..3] == "://";
    assert origin == origin[..marker] + origin[marker..marker + 3] + origin[marker + 3..];
  }

  // What being on the same site means for the text of two origins.

  /** The marker between scheme and host starts nowhere in `s`. */
  ghost predicate HasNoMarker(s: string) {
    forall i | 0 <= i <= |s| :: !("://" <= s[i..])
  }

  /** An origin of this scheme and host. */
  ghost predicate IsOrigin(origin: string, scheme: string, host: string) {
    scheme != "" && HasNoMarker(scheme) && host != "" && origin == scheme + "://" + host
  }

  ghost predicate IsSubdomain(host: string, of: string) {
    exists sub: string :: host == sub + "." + of
  }

  /** `current` is an origin of the same scheme as `remembered`, and of the same host or a subdomain of that. */
  ghost predicate OnSite(remembered: string, current: string) {
    exists scheme, host, other ::
      && IsOrigin(remembered, scheme, host) && IsOrigin(current, scheme, other)
      && (other == host || IsSubdomain(other, host))
  }

  lemma {:induction false} FirstMarker(scheme: string, host: string)
    requires HasNoMarker(scheme)
    ensures IndexOf(scheme + "://" + host, "://") == Some(|scheme|)
  {
    var s := scheme + "://" + host;
    if scheme == "" {
      assert s[..3] == "://";
    } else {
      NoEarlyMarker(scheme, host);
      assert s[1..] == scheme[1..] + "://" + host;
      assert forall i | 0 <= i <= |scheme[1..]| :: scheme[1..][i..] == scheme[i + 1..];
      FirstMarker(scheme[1..], host);
    }
  }

  /** The marker cannot start within the scheme and end in the one that follows it. */
  lemma NoEarlyMarker(scheme: string, host: string)
    requires scheme != "" && HasNoMarker(scheme)
    ensures !("://" <= scheme + "://" + host)
  {
    var s := scheme + "://" + host;
    if |scheme| >= 3 {
      assert scheme[0..] == scheme && s[..3] == scheme[..3];
    } else {
      assert s[|scheme|] == ':';
    }
  }

  lemma {:induction false} BeforeMarker(s: string)
    requires IndexOf(s, "://").Some?
    ensures HasNoMarker(s[..IndexOf(s, "://").value])
  {
    var scheme := s[..IndexOf(s, "://").value];
    if scheme != "" {
      BeforeMarker(s[1..]);
      assert scheme[1..] == s[1..][..|scheme| - 1];
      forall i | 0 <= i <= |scheme|
        ensures !("://" <= scheme[i..])
      {
        if i == 0 {
          assert scheme[0..] == scheme && scheme <= s;
        } else {
          assert scheme[i..] == scheme[1..][i - 1..];
        }
      }
    }
  }

  /** An origin has exactly the parts it is written from. */
  lemma PartsExactly(origin: string, scheme: string, host: string)
    ensures PartsOf(origin) == Some(Parts(scheme, host)) <==> IsOrigin(origin, scheme, host)
  {
    if IsOrigin(origin, scheme, host) {
      FirstMarker(scheme, host);
      assert origin[..|scheme|] == scheme && origin[|scheme| + 3..] == host;
    }
    if PartsOf(origin) == Some(Parts(scheme, host)) {
      PartsDetermineOrigin(origin);
      BeforeMarker(origin);
    }
  }

  lemma SubdomainExactly(host: string, of: string)
    ensures EndsWith(host, "." + of) <==> IsSubdomain(host, of)
  {
    var end := "." + of;
    if EndsWith(host, end) {
      assert host == host[..|host| - |end|] + "." + of;
    }
    if sub :| host == sub + "." + of {
      assert host == sub + end;
    }
  }

  /** An entry may be used exactly on its own site: at the same origin, or at a subdomain of it. */
  lemma SameSiteExactly(remembered: string, current: string)
    ensures SameSite(remembered, current) <==> OnSite(remembered, current)
  {
    if SameSite(remembered, current) {
      var a, b := PartsOf(remembered).value, PartsOf(current).value;
      PartsExactly(remembered, a.scheme, a.host);
      PartsExactly(current, b.scheme, b.host);
      SubdomainExactly(b.host, a.host);
    }
    if scheme, host, other :|
      && IsOrigin(remembered, scheme, host) && IsOrigin(current, scheme, other)
      && (other == host || IsSubdomain(other, host))
    {
      PartsExactly(remembered, scheme, host);
      PartsExactly(current, scheme, other);
      SubdomainExactly(other, host);
    }
  }

  lemma SameSiteReflexive(a: string)
    ensures SameSite(a, a) <==> PartsOf(a).Some?
  {
  }

  lemma EndsWithTransitive(s: string, t: string, u: string)
    requires EndsWith(s, t) && EndsWith(t, u)
    ensures EndsWith(s, u)
  {
    assert s[|s| - |u|..] == s[|s| - |t|..][|t| - |u|..];
  }

  lemma SameSiteTransitive(a: string, b: string, c: string)
    requires SameSite(a, b) && SameSite(b, c)
    ensures SameSite(a, c)
  {
    var x, y, z := PartsOf(a).value.host, PartsOf(b).value.host, PartsOf(c).value.host;
    if x != y && y != z {
      assert EndsWith("." + y, "." + x) by {
        assert ("." + y)[|y| - |x|..] == y[|y| - (|x| + 1)..];
      }
      EndsWithTransitive(z, "." + y, "." + x);
    }
  }

  lemma SameSiteAntisymmetric(a: string, b: string)
    requires SameSite(a, b) && SameSite(b, a)
    ensures a == b
  {
    PartsDetermineOrigin(a);
    PartsDetermineOrigin(b);
  }

  /** Two origins an entry for `c` could come from are never side by side: one is above the other. */
  lemma SameSiteAncestorsComparable(a: string, b: string, c: string)
    requires SameSite(a, c) && SameSite(b, c)
    ensures SameSite(a, b) || SameSite(b, a)
  {
    var x, y, z := PartsOf(a).value.host, PartsOf(b).value.host, PartsOf(c).value.host;
    SuffixesNest(x, y, z);
    SuffixesNest(y, x, z);
  }

  lemma SuffixesNest(x: string, y: string, z: string)
    requires (x == z || EndsWith(z, "." + x)) && (y == z || EndsWith(z, "." + y))
    ensures |x| <= |y| ==> x == y || EndsWith(y, "." + x)
  {
    assert EndsWith(z, x) by {
      if x != z {
        assert z[|z| - |x|..] == z[|z| - |x| - 1..][1..];
      }
    }
    assert EndsWith(z, y) by {
      if y != z {
        assert z[|z| - |y|..] == z[|z| - |y| - 1..][1..];
      }
    }
    if |x| < |y| {
      assert y[|y| - |x| - 1..] == z[|z| - |x| - 1..];
    }
  }

  // ---- The memory ----

  /** A call on the memory. */
  datatype Event =
    | Remember(tab: TabId, itemId: string, origin: string, now: int)
    | Recall(tab: TabId, origin: string, now: int)
    | Peek(tab: TabId, now: int)
    | Forget(tab: TabId)
    | ForgetAll
    | Sweep(now: int)

  /** The entry of `tab`, if it has not expired. */
  function Live(entries: Entries, tab: TabId, now: int): Option<Entry> {
    if tab in entries && now < entries[tab].expiresAt then Some(entries[tab]) else None
  }

  /** What a recall answers. */
  function Recalled(entries: Entries, tab: TabId, origin: string, now: int): Option<Entry> {
    match Live(entries, tab, now)
    case Some(entry) => if SameSite(entry.origin, origin) then Some(entry) else None
    case None => None
  }

  /** The map after one call. */
  function After(entries: Entries, e: Event): Entries {
    match e
    case Remember(tab, itemId, origin, now) =>
      if itemId == "" || origin == "" then entries else entries[tab := Entry(itemId, origin, now + TTL_MS)]
    case Recall(tab, origin, now) => if Recalled(entries, tab, origin, now).None? then entries - {tab} else entries
    case Peek(tab, now) => if Live(entries, tab, now).None? then entries - {tab} else entries
    case Forget(tab) => entries - {tab}
    case ForgetAll => map[]
    case Sweep(now) => map tab | tab in entries && now < entries[tab].expiresAt :: entries[tab]
  }

  /** The map after a whole history, starting from nothing. */
  function AfterAll(history: seq<Event>): Entries {
    if history == [] then map[] else After(AfterAll(history[..|history| - 1]), history[|history| - 1])
  }

  /** `entries` without the ones of `seen` that have expired. */
  function Swept(entries: Entries, seen: set<TabId>, now: int): Entries {
    map tab | tab in entries && (tab in seen ==> now < entries[tab].expiresAt) :: entries[tab]
  }

  lemma SweptMore(entries: Entries, seen: set<TabId>, tab: TabId, now: int)
    requires tab in entries && tab !in seen
    ensures var left, more := Swept(entries, seen, now), Swept(entries, seen + {tab}, now);
            && tab in left && left[tab] == entries[tab]
            && (now < entries[tab].expiresAt ==> more == left)
            && (now >= entries[tab].expiresAt ==> more == left - {tab} && |more| == |left| - 1)
  {
    var left, more := Swept(entries, seen, now), Swept(entries, seen + {tab}, now);
    if now >= entries[tab].expiresAt {
      assert more == left - {tab};
      assert (left - {tab}).Keys == left.Keys - {tab};
    } else {
      assert more == left;
    }
  }

  class TabMemory {
    var entries: Entries

    constructor ()
      ensures entries == AfterAll([])
    {
      entries := map[];
    }

    method Remember(tab: TabId, itemId: string, origin: string, now: int) returns (stored: bool)
      modifies this
      ensures entries == After(old(entries), Event.Remember(tab, itemId, origin, now))
      ensures stored <==> itemId != "" && origin != ""
    {
      if itemId == "" || origin == "" {
        return false;
      }
      entries := entries[tab := Entry(itemId, origin, now + TTL_MS)];
      return true;
    }

    method Recall(tab: TabId, origin: string, now: int) returns (r: Option<Entry>)
      modifies this
      ensures entries == After(old(entries), Event.Recall(tab, origin, now))
      ensures r == Recalled(old(entries), tab, origin, now)
    {
      if tab !in entries {
        return None;
      }
      var entry := entries[tab];
      if now >= entry.expiresAt {
        entries := entries - {tab};
        return None;
      }
      if !SameSite(entry.origin, origin) {
        entries := entries - {tab};
        return None;
      }
      return Some(entry);
    }

    method Peek(tab: TabId, now: int) returns (r: Option<Entry>)
      modifies this
      ensures entries == After(old(entries), Event.Peek(tab, now))
      ensures r == Live(old(entries), tab, now)
    {
      if tab !in entries {
        return None;
      }
      var entry := entries[tab];
      if now >= entry.expiresAt {
        entries := entries - {tab};
        return None;
      }
      return Some(entry);
    }

    method Forget(tab: TabId) returns (had: bool)
      modifies this
      ensures entries == After(old(entries), Event.Forget(tab))
      ensures had <==> tab in old(entries)
    {
      had := tab in entries;
      entries := entries - {tab};
    }

    method ForgetAll()
      modifies this
      ensures entries == After(old(entries), Event.ForgetAll)
    {
      entries := map[];
    }

    method Sweep(now: int) returns (dropped: nat)
      modifies this
      ensures entries == After(old(entries), Event.Sweep(now))
      ensures dropped == |old(entries)| - |entries|
    {
      dropped := 0;
      ghost var before := entries;
      var tabs, seen: set<TabId> := entries.Keys, {};
      while seen != tabs
        invariant seen <= tabs == before.Keys
        invariant entries == Swept(before, seen, now)
        invariant dropped == |before| - |entries|
        decreases tabs - seen
      {
        ghost var left := SomethingLeft(tabs, seen);
        var tab :| tab in tabs && tab !in seen;
        SweptMore(before, seen, tab, now);
        seen := seen + {tab};
        if now >= entries[tab].expiresAt {
          entries := entries - {tab};
          dropped := dropped + 1;
        }
      }
    }
  }

  // ---- What the answers mean, in terms of the history ----

  /** The clock of a history never goes back, and is at most `now` at the end. */
  ghost predicate ClockUpTo(history: seq<Event>, now: int) {
    && (forall i :: 0 <= i < |history| && Timed(history[i]) ==> history[i].now <= now)
    && (forall i, j :: 0 <= i < j < |history| && Timed(history[i]) && Timed(history[j]) ==>
          history[i].now <= history[j].now)
  }

  predicate Timed(e: Event) {
    e.Remember? || e.Recall? || e.Peek? || e.Sweep?
  }

  /** `e` makes the memory of `tab` start over. */
  predicate Chooses(e: Event, tab: TabId) {
    e.Remember? && e.tab == tab && e.itemId != "" && e.origin != ""
  }

  /** `e` puts an end to a memory of `tab` made at `origin`. */
  ghost predicate Ends(e: Event, tab: TabId, origin: string) {
    || Chooses(e, tab)
    || e == Event.Forget(tab)
    || e == Event.ForgetAll
    || (e.Recall? && e.tab == tab && !OnSite(origin, e.origin))
  }

  /** Call `i` chose an item in `tab`, and nothing since has put an end to it. */
  ghost predicate Standing(history: seq<Event>, i: int, tab: TabId) {
    && 0 <= i < |history|
    && Chooses(history[i], tab)
    && forall k :: i < k < |history| ==> !Ends(history[k], tab, history[i].origin)
  }

  function EntryOf(e: Event): Entry
    requires e.Remember?
  {
    Entry(e.itemId, e.origin, e.now + TTL_MS)
  }

  /** What the map still holds for a tab was there before, unless it was chosen now, and was not put an end to. */
  lemma HeldStays(entries: Entries, e: Event, tab: TabId)
    requires tab in After(entries, e) && !Chooses(e, tab)
    ensures tab in entries && After(entries, e)[tab] == entries[tab] && !Ends(e, tab, entries[tab].origin)
  {
    if e.Recall? && e.tab == tab && tab in entries {
      SameSiteExactly(entries[tab].origin, e.origin);
    }
  }

  /** What the map holds for a tab is its standing choice. */
  lemma {:induction false} HeldIsStanding(history: seq<Event>, tab: TabId)
    requires tab in AfterAll(history)
    ensures exists i :: Standing(history, i, tab) && AfterAll(history)[tab] == EntryOf(history[i])
    decreases |history|
  {
    var n := |history| - 1;
    var before, e := history[..n], history[n];
    if Chooses(e, tab) {
      assert Standing(history, n, tab);
    } else {
      HeldIsStanding(before, tab);
      HeldStays(AfterAll(before), e, tab);
      var i :| Standing(before, i, tab) && AfterAll(before)[tab] == EntryOf(before[i]);
      assert history[i] == before[i];
      assert Standing(history, i, tab);
    }
  }

  /** The map lacks a standing choice only if it has expired by now. */
  lemma {:induction false} StandingIsHeld(history: seq<Event>, tab: TabId, now: int, i: nat)
    requires ClockUpTo(history, now)
    requires Standing(history, i, tab) && now < history[i].now + TTL_MS
    ensures tab in AfterAll(history) && AfterAll(history)[tab] == EntryOf(history[i])
    decreases |history|
  {
    var n := |history| - 1;
    var before, e := history[..n], history[n];
    if i < n {
      StandingIsHeld(before, tab, if Timed(e) then e.now else now, i);
      assert !Ends(e, tab, history[i].origin);
      if e.Recall? {
        SameSiteExactly(history[i].origin, e.origin);
      }
    }
  }

  /**
   * Expiry is the only thing the map forgets on its own: what it holds for a tab is the standing
   * choice, and it lacks a standing choice only if that has expired by `now`.
   */
  lemma HoldsStanding(history: seq<Event>, tab: TabId, now: int)
    requires ClockUpTo(history, now)
    ensures tab in AfterAll(history) ==>
              exists i :: Standing(history, i, tab) && AfterAll(history)[tab] == EntryOf(history[i])
    ensures forall i | Standing(history, i, tab) && now < history[i].now + TTL_MS ::
              tab in AfterAll(history) && AfterAll(history)[tab] == EntryOf(history[i])
  {
    if tab in AfterAll(history) {
      HeldIsStanding(history, tab);
    }
    forall i | Standing(history, i, tab) && now < history[i].now + TTL_MS
      ensures tab in AfterAll(history) && AfterAll(history)[tab] == EntryOf(history[i])
    {
      StandingIsHeld(history, tab, now, i);
    }
  }

  /**
   * A recall answers with an item exactly when the latest choice in the tab is under a minute old,
   * nothing has put an end to it, and the page is on the site it was made at; and it answers with
   * that choice.
   */
  lemma RecallExactly(history: seq<Event>, tab: TabId, origin: string, now: int)
    requires ClockUpTo(history, now)
    ensures var r := Recalled(AfterAll(history), tab, origin, now);
            && (r.Some? <==> exists i ::
                  Standing(history, i, tab) && now < history[i].now + 60_000 && OnSite(history[i].origin, origin))
            && forall i | Standing(history, i, tab) && r.Some? :: r.value == EntryOf(history[i])
  {
    HoldsStanding(history, tab, now);
    StandingUnique(history, tab);
    forall i | Standing(history, i, tab)
      ensures SameSite(history[i].origin, origin) <==> OnSite(history[i].origin, origin)
    {
      SameSiteExactly(history[i].origin, origin);
    }
  }

  lemma PeekExactly(history: seq<Event>, tab: TabId, now: int)
    requires ClockUpTo(history, now)
    ensures var r := Live(AfterAll(history), tab, now);
            && (r.Some? <==> exists i :: Standing(history, i, tab) && now < history[i].now + 60_000)
            && forall i | Standing(history, i, tab) && r.Some? :: r.value == EntryOf(history[i])
  {
    HoldsStanding(history, tab, now);
    StandingUnique(history, tab);
  }

  lemma StandingUnique(history: seq<Event>, tab: TabId)
    ensures forall i, j | Standing(history, i, tab) && Standing(history, j, tab) :: i == j
  {
    forall i, j | Standing(history, i, tab) && Standing(history, j, tab)
      ensures i == j
    {
      assert i < j ==> Ends(history[j], tab, history[i].origin);
      assert j < i ==> Ends(history[i], tab, history[j].origin);
    }
  }

  // ---- Cleaning up is unobservable ----

  /** The calls that choose or end a memory, in order: the history without its peeks and sweeps. */
  function WithoutCleaning(history: seq<Event>): seq<Event> {
    if history == [] then []
    else
      var rest, e := WithoutCleaning(history[..|history| - 1]), history[|history| - 1];
      if e.Peek? || e.Sweep? then rest else rest + [e]
  }

  /** Both maps answer alike from `now` on. */
  ghost predicate AgreeFrom(m: Entries, m': Entries, now: int) {
    forall tab, t | t >= now :: Live(m, tab, t) == Live(m', tab, t)
  }

  lemma AfterAgrees(m: Entries, m': Entries, e: Event, e': Option<Event>, now: int, later: int)
    requires AgreeFrom(m, m', now) && now <= later && (Timed(e) ==> now <= e.now <= later)
    requires e' == if e.Peek? || e.Sweep? then None else Some(e)
    ensures AgreeFrom(After(m, e), if e'.Some? then After(m', e'.value) else m', later)
  {
    var n, n' := After(m, e), if e'.Some? then After(m', e'.value) else m';
    forall tab, t | t >= later
      ensures Live(n, tab, t) == Live(n', tab, t)
    {
      assert Live(m, tab, t) == Live(m', tab, t);
      assert Timed(e) ==> Live(m, tab, e.now) == Live(m', tab, e.now);
    }
  }

  lemma {:induction false} CleaningAgrees(history: seq<Event>, now: int)
    requires ClockUpTo(history, now)
    ensures AgreeFrom(AfterAll(history), AfterAll(WithoutCleaning(history)), now)
    decreases |history|
  {
    if history != [] {
      var n := |history| - 1;
      var before, e := history[..n], history[n];
      var t := if Timed(e) then e.now else now;
      CleaningAgrees(before, t);
      var rest, e' := WithoutCleaning(before), if e.Peek? || e.Sweep? then None else Some(e);
      AfterAgrees(AfterAll(before), AfterAll(rest), e, e', t, now);
      assert e'.Some? ==> (rest + [e])[..|rest|] == rest;
    }
  }

  /**
   * Two histories that differ only in where memories were peeked at and swept away cannot be told
   * apart by any later recall or peek.
   */
  lemma CleaningUnobservable(history: seq<Event>, other: seq<Event>, tab: TabId, origin: string, now: int)
    requires ClockUpTo(history, now) && ClockUpTo(other, now)
    requires WithoutCleaning(history) == WithoutCleaning(other)
    ensures Recalled(AfterAll(history), tab, origin, now) == Recalled(AfterAll(other), tab, origin, now)
    ensures Live(AfterAll(history), tab, now) == Live(AfterAll(other), tab, now)
  {
    CleaningAgrees(history, now);
    CleaningAgrees(other, now);
    assert Live(AfterAll(history), tab, now) == Live(AfterAll(WithoutCleaning(history)), tab, now);
  }
}
