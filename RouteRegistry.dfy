/**
 * Route discovery of the REST server: the `route` class decorator, the
 * route map built from the handler classes of the handler package, and the
 * sorted handler list handed to the HTTP application.
 */
module RouteRegistry {
  import opened Wrappers
  import opened Text

  /**
   * A request-handler class. `route` is its class attribute: `None` when
   * `hasattr(cls, "route")` is false, `Some(path)` once the decorator ran.
   */
  class HandlerClass {
    const name: string
    var route: Option<string>

    constructor (name: string)
      ensures this.name == name && route == None
    {
      this.name := name;
      route := None;
    }
  }

  /** `route(path)(cls)`: stores the path on the class and hands back the same class. */
  method Route(path: string, cls: HandlerClass) returns (decorated: HandlerClass)
    modifies cls
    ensures decorated == cls
    ensures cls.route == Some(path)
  {
    cls.route := Some(path);
    decorated := cls;
  }

  /** What discovery logs about a handler it does not register. */
  datatype RegistryEvent =
    | MissingRoute(handler: HandlerClass)
    | RouteConflict(route: string, handler: HandlerClass, registered: HandlerClass)

  /** `list.index(x)`: the position of the first occurrence of `x`. */
  function IndexOf<T(==)>(s: seq<T>, x: T): (i: nat)
    requires x in s
    ensures i < |s| && s[i] == x && x !in s[..i]
  {
    if s[0] == x then 0 else 1 + IndexOf(s[1..], x)
  }

  /** `list.remove(x)`: drops the first occurrence of `x`. */
  function RemoveFirst<T(==)>(s: seq<T>, x: T): seq<T>
    requires x in s
  {
    var i := IndexOf(s, x);
    s[..i] + s[i + 1..]
  }

  /** The classes discovery iterates over: the module's handler classes without the base class. */
  function Candidates(moduleClasses: seq<HandlerClass>, base: HandlerClass): seq<HandlerClass> {
    if base in moduleClasses then RemoveFirst(moduleClasses, base) else moduleClasses
  }

  /**
   * Discovery iterates over the module's classes with one occurrence of the
   * base class removed, when there is one: every candidate is a module class,
   * every module class other than the base is a candidate, and a base class
   * occurring once is gone.
   */
  lemma CandidatesFromModule(moduleClasses: seq<HandlerClass>, base: HandlerClass)
    ensures forall h :: h in Candidates(moduleClasses, base) ==> h in moduleClasses
    ensures forall h :: h in moduleClasses && h != base ==> h in Candidates(moduleClasses, base)
    ensures base in moduleClasses ==> multiset(Candidates(moduleClasses, base)) == multiset(moduleClasses) - multiset{base}
    ensures base !in moduleClasses ==> Candidates(moduleClasses, base) == moduleClasses
    ensures multiset(moduleClasses)[base] <= 1 ==> base !in Candidates(moduleClasses, base)
  {
    if base in moduleClasses {
      var i := IndexOf(moduleClasses, base);
      var before, after := moduleClasses[..i], moduleClasses[i + 1..];
      assert moduleClasses == before + [base] + after;
      assert Candidates(moduleClasses, base) == before + after;
      assert multiset(moduleClasses) == multiset(before) + multiset{base} + multiset(after);
      assert multiset(before + after) == multiset(before) + multiset(after);
      forall h | h in moduleClasses && h != base ensures h in before + after {
        assert h in multiset(moduleClasses);
        assert h in multiset(before + after);
      }
    }
  }

  /** The routes the given handlers declare. */
  ghost function DeclaredRoutes(hs: seq<HandlerClass>): set<string>
    reads hs
  {
    set h | h in hs && h.route.Some? :: h.route.value
  }

  /** `hs[i]` is the first of `hs` that declares route `r`. */
  ghost predicate IsFirstRegistrant(hs: seq<HandlerClass>, i: int, r: string)
    reads hs
  {
    0 <= i < |hs| && hs[i].route == Some(r) && forall j :: 0 <= j < i ==> hs[j].route != Some(r)
  }

  /** The position of the first handler that declares `r`. */
  ghost function FirstIndex(hs: seq<HandlerClass>, r: string): (i: nat)
    reads hs
    requires r in DeclaredRoutes(hs)
    ensures IsFirstRegistrant(hs, i, r)
  {
    if hs[0].route == Some(r) then 0
    else
      assert r in DeclaredRoutes(hs[1..]) by {
        var h :| h in hs && h.route == Some(r);
        assert h in hs[1..];
      }
      1 + FirstIndex(hs[1..], r)
  }

  /** The route map discovery should produce: each declared route to its first registrant. */
  ghost function Registered(hs: seq<HandlerClass>): (m: map<string, HandlerClass>)
    reads hs
    ensures m.Keys == DeclaredRoutes(hs)
  {
    map r | r in DeclaredRoutes(hs) :: hs[FirstIndex(hs, r)]
  }

  /** The log discovery should produce, handler by handler: a missing route, or a conflict with the first registrant. */
  ghost function Rejections(hs: seq<HandlerClass>): seq<RegistryEvent>
    reads hs
    decreases |hs|
  {
    if hs == [] then []
    else
      var prefix, h := hs[..|hs| - 1], hs[|hs| - 1];
      Rejections(prefix)
      + if h.route.None? then [MissingRoute(h)]
        else if h.route.value in DeclaredRoutes(prefix) then
          [RouteConflict(h.route.value, h, prefix[FirstIndex(prefix, h.route.value)])]
        else []
  }

  /** The route map and the rejection log only depend on the routes of the handlers, so they are the same in any state that keeps them. */
  twostate lemma RegistryStable(hs: seq<HandlerClass>)
    requires unchanged(hs)
    ensures Registered(hs) == old(Registered(hs))
    ensures Rejections(hs) == old(Rejections(hs))
  {
  }

  /** A first registrant of a prefix stays the first registrant when the prefix grows by one. */
  lemma FirstIndexExtend(hs: seq<HandlerClass>, n: nat, r: string)
    requires n < |hs| && r in DeclaredRoutes(hs[..n])
    ensures r in DeclaredRoutes(hs[..n + 1]) && FirstIndex(hs[..n + 1], r) == FirstIndex(hs[..n], r)
  {
    var longer := hs[..n + 1];
    assert longer[..n] == hs[..n];
    var i := FirstIndex(hs[..n], r);
    assert longer[i] in longer;
    var k := FirstIndex(longer, r);
  }

  lemma DeclaredRoutesExtend(hs: seq<HandlerClass>, n: nat)
    requires n < |hs|
    ensures DeclaredRoutes(hs[..n + 1])
         == DeclaredRoutes(hs[..n]) + (if hs[n].route.Some? then {hs[n].route.value} else {})
  {
    assert hs[..n + 1] == hs[..n] + [hs[n]];
  }

  lemma RejectionsExtend(hs: seq<HandlerClass>, n: nat)
    requires n < |hs|
    ensures Rejections(hs[..n + 1])
         == Rejections(hs[..n])
            + if hs[n].route.None? then [MissingRoute(hs[n])]
              else if hs[n].route.value in DeclaredRoutes(hs[..n]) then
                [RouteConflict(hs[n].route.value, hs[n], hs[FirstIndex(hs[..n], hs[n].route.value)])]
              else []
  {
    assert hs[..n + 1][..n] == hs[..n];
  }

  /** Each registered handler declares the route it is registered under and is one of the module's classes. */
  lemma RegisteredFromModule(moduleClasses: seq<HandlerClass>, base: HandlerClass)
    ensures forall r :: r in Registered(Candidates(moduleClasses, base)) ==>
              Registered(Candidates(moduleClasses, base))[r].route == Some(r)
              && Registered(Candidates(moduleClasses, base))[r] in moduleClasses
    ensures multiset(moduleClasses)[base] <= 1 ==> base !in Registered(Candidates(moduleClasses, base)).Values
  {
    CandidatesFromModule(moduleClasses, base);
    var cands := Candidates(moduleClasses, base);
    var routeMap := Registered(cands);
    forall r | r in routeMap ensures routeMap[r] in cands {
      var i := FirstIndex(cands, r);
      assert routeMap[r] == cands[i];
    }
  }

  /** How the expected route map grows by one handler: only a route not seen before is added. */
  lemma RegisteredExtend(hs: seq<HandlerClass>, n: nat)
    requires n < |hs|
    ensures Registered(hs[..n + 1])
         == if hs[n].route.Some? && hs[n].route.value !in DeclaredRoutes(hs[..n])
            then Registered(hs[..n])[hs[n].route.value := hs[n]]
            else Registered(hs[..n])
  {
    DeclaredRoutesExtend(hs, n);
    var before, after := Registered(hs[..n]), Registered(hs[..n + 1]);
    forall r | r in DeclaredRoutes(hs[..n]) ensures after[r] == before[r] {
      FirstIndexExtend(hs, n, r);
    }
    if hs[n].route.Some? && hs[n].route.value !in DeclaredRoutes(hs[..n]) {
      assert IsFirstRegistrant(hs[..n + 1], n, hs[n].route.value);
    }
  }

  /** `getRouteMap()`: registers each candidate under its route; the first registrant of a route wins. */
  method GetRouteMap(moduleClasses: seq<HandlerClass>, base: HandlerClass)
    returns (routeMap: map<string, HandlerClass>, log: seq<RegistryEvent>)
    ensures routeMap == Registered(Candidates(moduleClasses, base))
    ensures forall r :: r in routeMap ==> routeMap[r].route == Some(r) && routeMap[r] in moduleClasses
    ensures multiset(moduleClasses)[base] <= 1 ==> base !in routeMap.Values
    ensures log == Rejections(Candidates(moduleClasses, base))
  {
    var restHandlers := moduleClasses;
    if base in restHandlers {
      restHandlers := RemoveFirst(restHandlers, base);
    }
    routeMap, log := map[], [];
    for n := 0 to |restHandlers|
      invariant routeMap == Registered(restHandlers[..n])
      invariant log == Rejections(restHandlers[..n])
    {
      var handler := restHandlers[n];
      RegisteredExtend(restHandlers, n);
      RejectionsExtend(restHandlers, n);
      if handler.route.Some? {
        if handler.route.value in routeMap {
          log := log + [RouteConflict(handler.route.value, handler, routeMap[handler.route.value])];
        } else {
          routeMap := routeMap[handler.route.value := handler];
        }
      } else {
        log := log + [MissingRoute(handler)];
      }
    }
    assert restHandlers[..|restHandlers|] == restHandlers;
    RegisteredFromModule(moduleClasses, base);
  }

  /** The first registrant of a route is what the route map holds for it. */
  lemma RegisteredFirstWins(hs: seq<HandlerClass>, i: nat, r: string)
    requires IsFirstRegistrant(hs, i, r)
    ensures r in Registered(hs) && Registered(hs)[r] == hs[i]
  {
    assert hs[i] in hs;
    var k := FirstIndex(hs, r);
  }

  /** A later class declaring a route that is already taken is never the one registered. */
  lemma LaterDuplicateRejected(hs: seq<HandlerClass>, i: nat, j: nat)
    requires i < j < |hs| && hs[i].route.Some? && hs[j].route == hs[i].route
    requires hs[j] !in hs[..j]
    ensures hs[i].route.value in Registered(hs) && Registered(hs)[hs[i].route.value] != hs[j]
  {
    var r := hs[i].route.value;
    assert hs[i] in hs;
    var k := FirstIndex(hs, r);
    assert k <= i;
    assert hs[k] in hs[..j];
  }

  /** Discovery logs each handler it does not register: a missing route, or a conflict with the first registrant. */
  lemma {:induction false} RejectionsReportEveryLoser(hs: seq<HandlerClass>, i: nat)
    requires i < |hs|
    ensures hs[i].route.None? ==> MissingRoute(hs[i]) in Rejections(hs)
    ensures hs[i].route.Some? ==> hs[i].route.value in DeclaredRoutes(hs)
    ensures hs[i].route.Some? && i != FirstIndex(hs, hs[i].route.value) ==>
              RouteConflict(hs[i].route.value, hs[i], hs[FirstIndex(hs, hs[i].route.value)]) in Rejections(hs)
    decreases |hs|
  {
    var n := |hs| - 1;
    assert hs[..n + 1] == hs;
    assert hs[i] in hs;
    RejectionsExtend(hs, n);
    if i < n {
      var prefix := hs[..n];
      assert prefix[i] == hs[i];
      RejectionsReportEveryLoser(prefix, i);
      if hs[i].route.Some? {
        FirstIndexExtend(hs, n, hs[i].route.value);
      }
    } else if hs[i].route.Some? && hs[i].route.value in DeclaredRoutes(hs[..n]) {
      FirstIndexExtend(hs, n, hs[i].route.value);
    } else if hs[i].route.Some? {
      RegisteredExtend(hs, n);
      assert IsFirstRegistrant(hs, i, hs[i].route.value);
      RegisteredFirstWins(hs, i, hs[i].route.value);
    }
  }

  /** Every handler is either registered as the first of its route or logged once: the log has one entry per other handler. */
  lemma {:induction false} RejectionsCount(hs: seq<HandlerClass>)
    ensures |Rejections(hs)| == |hs| - |DeclaredRoutes(hs)|
    decreases |hs|
  {
    if hs != [] {
      var n := |hs| - 1;
      assert hs[..n + 1] == hs;
      RejectionsExtend(hs, n);
      DeclaredRoutesExtend(hs, n);
      RejectionsCount(hs[..n]);
      DeclaredRoutesBound(hs[..n]);
      var before := DeclaredRoutes(hs[..n]);
      if hs[n].route.Some? && hs[n].route.value !in before {
        assert |before + {hs[n].route.value}| == |before| + 1;
      } else {
        assert DeclaredRoutes(hs) == before;
      }
    }
  }

  lemma {:induction false} DeclaredRoutesBound(hs: seq<HandlerClass>)
    ensures |DeclaredRoutes(hs)| <= |hs|
    decreases |hs|
  {
    if hs != [] {
      var n := |hs| - 1;
      assert hs[..n + 1] == hs;
      DeclaredRoutesExtend(hs, n);
      DeclaredRoutesBound(hs[..n]);
    }
  }

  /** No two handlers of the list declare the same route. */
  ghost predicate UniqueRoutes(hs: seq<HandlerClass>)
    reads hs
  {
    forall i, j :: 0 <= i < j < |hs| && hs[i].route.Some? ==> hs[i].route != hs[j].route
  }

  /** With unique routes nothing conflicts: only handlers without a route are logged, and every declarer is registered. */
  lemma {:induction false} UniqueRoutesNoConflict(hs: seq<HandlerClass>)
    requires UniqueRoutes(hs)
    ensures forall e :: e in Rejections(hs) ==> e.MissingRoute?
    ensures forall i :: 0 <= i < |hs| && hs[i].route.Some? ==> Registered(hs)[hs[i].route.value] == hs[i]
    decreases |hs|
  {
    if hs != [] {
      var n := |hs| - 1;
      var prefix := hs[..n];
      assert hs[..n + 1] == hs;
      assert forall k :: 0 <= k < n ==> prefix[k] == hs[k];
      assert UniqueRoutes(prefix);
      UniqueRoutesNoConflict(prefix);
      RejectionsExtend(hs, n);
      assert hs[n].route.Some? ==> hs[n].route.value !in DeclaredRoutes(prefix);
      forall i | 0 <= i < |hs| && hs[i].route.Some?
        ensures Registered(hs)[hs[i].route.value] == hs[i]
      {
        assert IsFirstRegistrant(hs, i, hs[i].route.value);
        RegisteredFirstWins(hs, i, hs[i].route.value);
      }
    }
  }

  /** With unique routes the discovery order does not matter: any ordering of the same classes gives the same map. */
  lemma RegisteredOrderIndependent(hs: seq<HandlerClass>, gs: seq<HandlerClass>)
    requires UniqueRoutes(hs) && UniqueRoutes(gs)
    requires forall h :: h in hs <==> h in gs
    ensures Registered(hs) == Registered(gs)
  {
    assert DeclaredRoutes(hs) == DeclaredRoutes(gs);
    forall r | r in DeclaredRoutes(hs) ensures Registered(hs)[r] == Registered(gs)[r] {
      var i := FirstIndex(hs, r);
      var k := FirstIndex(gs, r);
      assert hs[i] in gs;
      var k' :| 0 <= k' < |gs| && gs[k'] == hs[i];
    }
  }

  /** The initialization record every handler receives: `dict(node=...)`. */
  datatype InitRecord = InitRecord(node: string)

  /** One `(route, handler, init)` tuple of `getHandlers()`. */
  datatype HandlerEntry = HandlerEntry(route: string, handler: HandlerClass, init: InitRecord)

  predicate StrictlySorted(routes: seq<string>) {
    forall a, b :: 0 <= a < b < |routes| ==> LexLt(routes[a], routes[b])
  }

  predicate IsLeast(m: string, routes: set<string>) {
    m in routes && forall x :: x in routes ==> LexLe(m, x)
  }

  /** A finite nonempty set of strings has a least element. */
  lemma {:induction false} LeastExists(routes: set<string>)
    requires routes != {}
    ensures exists m :: IsLeast(m, routes)
    decreases |routes|
  {
    var y :| y in routes;
    if routes == {y} {
      LexLeTotal(y, y);
      assert IsLeast(y, routes);
    } else {
      LeastExists(routes - {y});
      var m :| IsLeast(m, routes - {y});
      LexLeTotal(m, y);
      if LexLe(m, y) {
        assert IsLeast(m, routes);
      } else {
        forall x | x in routes ensures LexLe(y, x) {
          if x != y {
            LexLeTransitive(y, m, x);
          } else {
            LexLeTotal(y, y);
          }
        }
        assert IsLeast(y, routes);
      }
    }
  }

  lemma LeastUnique(routes: set<string>)
    ensures forall m, m' :: IsLeast(m, routes) && IsLeast(m', routes) ==> m == m'
  {
    forall m, m' | IsLeast(m, routes) && IsLeast(m', routes) ensures m == m' {
      LexLeAntisymmetric(m, m');
    }
  }

  /** The routes of a set in Python's string order. */
  function SortedRoutes(routes: set<string>): (r: seq<string>)
    ensures |r| == |routes|
    ensures forall x :: x in routes <==> x in r
    ensures StrictlySorted(r)
    decreases |routes|
  {
    if routes == {} then []
    else
      LeastExists(routes);
      LeastUnique(routes);
      var m :| IsLeast(m, routes);
      var rest := SortedRoutes(routes - {m});
      assert forall b :: 0 <= b < |rest| ==> LexLt(m, rest[b]) by {
        forall b | 0 <= b < |rest| ensures LexLt(m, rest[b]) {
          assert rest[b] in routes - {m};
        }
      }
      [m] + rest
  }

  /** `entries` is the handler list for `routeMap`: one entry per route, sorted by route, each with the node record. */
  predicate IsHandlerList(entries: seq<HandlerEntry>, node: string, routeMap: map<string, HandlerClass>) {
    && |entries| == |routeMap|
    && (forall k :: 0 <= k < |entries| ==>
          entries[k].route in routeMap && entries[k].handler == routeMap[entries[k].route]
          && entries[k].init == InitRecord(node))
    && (forall r :: r in routeMap ==> exists k :: 0 <= k < |entries| && entries[k].route == r)
    && (forall a, b :: 0 <= a < b < |entries| ==> LexLt(entries[a].route, entries[b].route))
  }

  /** Entries built route by route from a sorted enumeration of the map's keys form the handler list. */
  lemma SortedEntriesAreHandlerList(entries: seq<HandlerEntry>, routes: seq<string>, node: string,
                                    routeMap: map<string, HandlerClass>)
    requires |routes| == |routeMap.Keys| && StrictlySorted(routes)
    requires forall x :: x in routeMap.Keys <==> x in routes
    requires |entries| == |routes|
    requires forall k :: 0 <= k < |routes| ==>
               routes[k] in routeMap && entries[k] == HandlerEntry(routes[k], routeMap[routes[k]], InitRecord(node))
    ensures IsHandlerList(entries, node, routeMap)
  {
    forall r | r in routeMap ensures exists k :: 0 <= k < |entries| && entries[k].route == r {
      var k :| 0 <= k < |routes| && routes[k] == r;
      assert entries[k].route == r;
    }
    forall a, b | 0 <= a < b < |entries| ensures LexLt(entries[a].route, entries[b].route) {
      assert entries[a].route == routes[a] && entries[b].route == routes[b];
    }
  }

  /** The comprehension of `getHandlers()` over `sorted(routeMap.items())`. */
  function HandlerEntries(node: string, routeMap: map<string, HandlerClass>): (entries: seq<HandlerEntry>)
    ensures IsHandlerList(entries, node, routeMap)
  {
    var routes := SortedRoutes(routeMap.Keys);
    var entries := seq(|routes|, k requires 0 <= k < |routes| =>
                         HandlerEntry(routes[k], routeMap[routes[k]], InitRecord(node)));
    SortedEntriesAreHandlerList(entries, routes, node, routeMap);
    entries
  }

  /** Two strictly sorted sequences with the same elements are equal. */
  lemma {:induction false} SortedSequencesEqual(s: seq<string>, t: seq<string>)
    requires StrictlySorted(s) && StrictlySorted(t)
    requires forall x :: x in s <==> x in t
    ensures s == t
    decreases |s|
  {
    if s != [] {
      assert s[0] in s;
    }
    if t != [] {
      assert t[0] in t;
    }
    if s != [] && t != [] {
      var i :| 0 <= i < |t| && t[i] == s[0];
      var j :| 0 <= j < |s| && s[j] == t[0];
      if i > 0 && j > 0 {
        LexLeAntisymmetric(t[0], s[0]);
      }
      assert s[0] == t[0];
      forall x ensures x in s[1..] <==> x in t[1..] {
        if x in s[1..] {
          var a :| 0 <= a < |s[1..]| && s[1..][a] == x;
          assert LexLt(s[0], s[a + 1]);
          assert s[a + 1] in s;
          var b :| 0 <= b < |t| && t[b] == x;
          assert b != 0;
          assert t[1..][b - 1] == x;
        }
        if x in t[1..] {
          var b :| 0 <= b < |t[1..]| && t[1..][b] == x;
          assert LexLt(t[0], t[b + 1]);
          assert t[b + 1] in t;
          var a :| 0 <= a < |s| && s[a] == x;
          assert a != 0;
          assert s[1..][a - 1] == x;
        }
      }
      SortedSequencesEqual(s[1..], t[1..]);
      assert s == [s[0]] + s[1..] && t == [t[0]] + t[1..];
    }
  }

  function RoutesOf(entries: seq<HandlerEntry>): (routes: seq<string>)
    ensures |routes| == |entries| && forall k :: 0 <= k < |entries| ==> routes[k] == entries[k].route
  {
    seq(|entries|, k requires 0 <= k < |entries| => entries[k].route)
  }

  /** The routes of a handler list are the map's routes, strictly sorted. */
  lemma HandlerListRoutes(entries: seq<HandlerEntry>, node: string, routeMap: map<string, HandlerClass>)
    requires IsHandlerList(entries, node, routeMap)
    ensures StrictlySorted(RoutesOf(entries))
    ensures forall x :: x in RoutesOf(entries) <==> x in routeMap
  {
    var routes := RoutesOf(entries);
    forall a, b | 0 <= a < b < |routes| ensures LexLt(routes[a], routes[b]) {
      assert routes[a] == entries[a].route && routes[b] == entries[b].route;
    }
    forall x ensures x in routes <==> x in routeMap {
      if x in routes {
        var k :| 0 <= k < |routes| && routes[k] == x;
        assert entries[k].route == x;
      }
      if x in routeMap {
        var k :| 0 <= k < |entries| && entries[k].route == x;
        assert routes[k] == x;
      }
    }
  }

  /** The handler list is determined by the route map: installation order is reproducible. */
  lemma HandlerListDeterministic(e1: seq<HandlerEntry>, e2: seq<HandlerEntry>, node: string, routeMap: map<string, HandlerClass>)
    requires IsHandlerList(e1, node, routeMap) && IsHandlerList(e2, node, routeMap)
    ensures e1 == e2
  {
    var r1, r2 := RoutesOf(e1), RoutesOf(e2);
    HandlerListRoutes(e1, node, routeMap);
    HandlerListRoutes(e2, node, routeMap);
    SortedSequencesEqual(r1, r2);
    forall k | 0 <= k < |e1| ensures e1[k] == e2[k] {
      assert r1[k] == r2[k];
    }
  }
}
