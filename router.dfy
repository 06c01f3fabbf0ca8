// The routing half of gin-di-router (tool.go): which methods of a controller
// become routes, under which HTTP verb and path, and on which router group.
//
// Reflection is replaced by a list of method descriptors: what reflect
// reports about each method (name, exported or not, number of inputs
// counting the receiver) and what calling it returns (an APIType, a handler
// list and, for RegisterWithGroup, an optional path). A gin router group is
// replaced by the log of the routes registered on it, in registration order.
// Go does not fix the order in which a map is ranged over, so the routes a
// registration adds are specified as a multiset.

module Router {
  import SnakeCase

  datatype Option<T> = None | Some(value: T)

  /** A gin.HandlerFunc, known only by its identity. */
  type HandlerId = nat

  // The APIType constants, numbered from 0 in declaration order (iota).
  const Default: int := 0
  const Get: int := 1
  const Delete: int := 2
  const Put: int := 3
  const Patch: int := 4
  const Post: int := 5
  const Options: int := 6
  const Any: int := 7
  const Head: int := 8

  /** The gin registration calls: group.GET, group.DELETE, ..., group.Any,
      group.HEAD. */
  datatype Verb = GET | DELETE | PUT | PATCH | POST | OPTIONS | ANY | HEAD

  /** One registration on a router group. */
  datatype Route = Route(verb: Verb, path: string, handlers: seq<HandlerId>)

  /** One method of the controller. apiType, handlers and path are the values
      the method returns when called: path is Some exactly when it returns a
      third value. */
  datatype MethodDesc = MethodDesc(
    name: string,
    exported: bool,
    numIn: int,
    apiType: int,
    handlers: seq<HandlerId>,
    path: Option<string>)

  /** What the registration functions write to the log: a method with the
      wrong number of inputs, or a method whose APIType is Default. */
  datatype Diagnostic = WrongArity(name: string, numIn: int) | NoApiType

  /** The APIType value whose case calls each registration function. */
  function ApiTypeOf(v: Verb): (t: int)
    ensures Get <= t <= Head
  {
    match v
    case GET => Get
    case DELETE => Delete
    case PUT => Put
    case PATCH => Patch
    case POST => Post
    case OPTIONS => Options
    case ANY => Any
    case HEAD => Head
  }

  // ---------------------------------------------------------------------
  // The switch on the APIType
  // ---------------------------------------------------------------------

  /** What the switch does with one method: register it under a verb, log
      that it has no API type, or nothing at all. */
  datatype Action = Install(verb: Verb) | LogNoType | Ignore

  /** The switch of Register and RegisterWithGroup: each of Get .. Head
      registers under its own verb, Default only logs, and any other integer
      matches no case. */
  function Dispatch(apiType: int): (a: Action)
    ensures a.Install? <==> Get <= apiType <= Head
    ensures a.Install? ==> ApiTypeOf(a.verb) == apiType
    ensures a == LogNoType <==> apiType == Default
  {
    if apiType == Get then Install(GET)
    else if apiType == Delete then Install(DELETE)
    else if apiType == Put then Install(PUT)
    else if apiType == Post then Install(POST)
    else if apiType == Patch then Install(PATCH)
    else if apiType == Options then Install(OPTIONS)
    else if apiType == Any then Install(ANY)
    else if apiType == Head then Install(HEAD)
    else if apiType == Default then LogNoType
    else Ignore
  }

  /** Every verb is reached by exactly one APIType, its own. */
  lemma DispatchVerb(v: Verb, apiType: int)
    ensures Dispatch(apiType) == Install(v) <==> apiType == ApiTypeOf(v)
  {
  }

  // ---------------------------------------------------------------------
  // suitableMethods
  // ---------------------------------------------------------------------

  /** A method is kept when it is exported and takes no input besides its
      receiver. An exported method is either kept or reported for its number
      of inputs, never both. */
  predicate Suitable(m: MethodDesc)
    ensures Suitable(m) ==> !WrongArityMethod(m)
    ensures m.exported ==> Suitable(m) || WrongArityMethod(m)
  {
    m.exported && m.numIn == 1
  }

  /** The map suitableMethods returns: every suitable method under its name,
      a later method replacing an earlier one of the same name. */
  function Kept(methods: seq<MethodDesc>): (r: map<string, MethodDesc>)
    ensures |r| <= |methods|
  {
    if methods == [] then map[]
    else
      var m := methods[|methods| - 1];
      var r := Kept(methods[..|methods| - 1]);
      if Suitable(m) then r[m.name := m] else r
  }

  /** The lines suitableMethods logs when reportErr is set: one per exported
      method whose number of inputs is not 1, in order. */
  function ArityLog(methods: seq<MethodDesc>): (log: seq<Diagnostic>)
    ensures |log| <= |methods|
  {
    if methods == [] then []
    else
      var m := methods[|methods| - 1];
      var log := ArityLog(methods[..|methods| - 1]);
      if WrongArityMethod(m) then log + [WrongArity(m.name, m.numIn)] else log
  }

  /** The methods suitableMethods logs: exported, with a number of inputs
      other than 1. */
  predicate WrongArityMethod(m: MethodDesc)
  {
    m.exported && m.numIn != 1
  }

  /** suitableMethods: walks the methods in order, skips unexported ones
      silently, skips (and, when asked, logs) those with the wrong number of
      inputs, and stores the rest under their names. */
  method SuitableMethods(methods: seq<MethodDesc>, reportErr: bool)
    returns (r: map<string, MethodDesc>, log: seq<Diagnostic>)
    ensures r == Kept(methods)
    ensures log == if reportErr then ArityLog(methods) else []
  {
    r, log := map[], [];
    var i := 0;
    while i < |methods|
      invariant 0 <= i <= |methods|
      invariant r == Kept(methods[..i])
      invariant log == if reportErr then ArityLog(methods[..i]) else []
    {
      var m := methods[i];
      assert methods[..i + 1][..i] == methods[..i];
      if !m.exported {
        // unexported: skipped without a word
      } else if m.numIn != 1 {
        if reportErr {
          log := log + [WrongArity(m.name, m.numIn)];
        }
      } else {
        r := r[m.name := m];
      }
      i := i + 1;
    }
    assert methods[..i] == methods;
  }

  /** A name is in the map exactly when some suitable method has it. */
  lemma {:induction false} KeptDomain(methods: seq<MethodDesc>, name: string)
    ensures name in Kept(methods) <==>
      exists i :: 0 <= i < |methods| && Suitable(methods[i]) && methods[i].name == name
  {
    if methods != [] {
      var n := |methods| - 1;
      var front := methods[..n];
      KeptDomain(front, name);
      if exists i :: 0 <= i < n && Suitable(front[i]) && front[i].name == name {
        var i :| 0 <= i < n && Suitable(front[i]) && front[i].name == name;
        assert methods[i] == front[i];
      }
      if exists i :: 0 <= i < |methods| && Suitable(methods[i]) && methods[i].name == name {
        var i :| 0 <= i < |methods| && Suitable(methods[i]) && methods[i].name == name;
        if i < n {
          assert front[i] == methods[i];
        }
      }
    }
  }

  /** The method stored under a name is a suitable method of the controller
      that has that name. */
  lemma {:induction false} KeptValue(methods: seq<MethodDesc>, name: string)
    requires name in Kept(methods)
    ensures Suitable(Kept(methods)[name]) && Kept(methods)[name].name == name && Kept(methods)[name] in methods
  {
    var n := |methods| - 1;
    var front := methods[..n];
    if name in Kept(front) && !(Suitable(methods[n]) && methods[n].name == name) {
      KeptValue(front, name);
    }
  }

  /** The method kept under a name is the last suitable method of that
      name. */
  lemma {:induction false} KeptLast(methods: seq<MethodDesc>, i: nat)
    requires i < |methods| && Suitable(methods[i])
    requires forall j :: i < j < |methods| ==> !(Suitable(methods[j]) && methods[j].name == methods[i].name)
    ensures methods[i].name in Kept(methods) && Kept(methods)[methods[i].name] == methods[i]
  {
    var n := |methods| - 1;
    if i < n {
      var front := methods[..n];
      assert front[i] == methods[i];
      KeptLast(front, i);
    }
  }

  /** The log holds a line for each exported method with the wrong number of
      inputs, naming it and its count, and no other line. */
  lemma {:induction false} ArityLogEntries(methods: seq<MethodDesc>, d: Diagnostic)
    ensures d in ArityLog(methods) <==>
      exists i :: 0 <= i < |methods| && WrongArityMethod(methods[i]) && d == WrongArity(methods[i].name, methods[i].numIn)
  {
    if methods != [] {
      var n := |methods| - 1;
      var front := methods[..n];
      ArityLogEntries(front, d);
      if exists i :: 0 <= i < n && WrongArityMethod(front[i]) && d == WrongArity(front[i].name, front[i].numIn) {
        var i :| 0 <= i < n && WrongArityMethod(front[i]) && d == WrongArity(front[i].name, front[i].numIn);
        assert methods[i] == front[i];
      }
      if exists i :: 0 <= i < |methods| && WrongArityMethod(methods[i]) && d == WrongArity(methods[i].name, methods[i].numIn) {
        var i :| 0 <= i < |methods| && WrongArityMethod(methods[i]) && d == WrongArity(methods[i].name, methods[i].numIn);
        if i < n {
          assert front[i] == methods[i];
        }
      }
    }
  }

  /** A Go type cannot have two methods of the same name; then every suitable
      method is kept as it is, and the map has one entry per suitable
      method. */
  lemma KeptDistinct(methods: seq<MethodDesc>, i: nat)
    requires forall j, k :: 0 <= j < k < |methods| ==> methods[j].name != methods[k].name
    requires i < |methods| && Suitable(methods[i])
    ensures methods[i].name in Kept(methods) && Kept(methods)[methods[i].name] == methods[i]
  {
    KeptLast(methods, i);
  }

  // ---------------------------------------------------------------------
  // What one registration adds
  // ---------------------------------------------------------------------

  /** The path a kept method is registered under: Register always
      snake-cases the method name; RegisterWithGroup snake-cases the third
      return value instead when the method has one. */
  function PathOf(useOverride: bool, name: string, m: MethodDesc): (p: string)
    ensures !useOverride || m.path.None? ==> p == SnakeCase.ToSnakeCase(name)
    ensures useOverride && m.path.Some? ==> p == SnakeCase.ToSnakeCase(m.path.value)
    ensures forall c :: c in p ==> !SnakeCase.IsUpper(c)
  {
    SnakeCase.ToSnakeCase(if useOverride && m.path.Some? then m.path.value else name)
  }

  /** The registration call the switch makes for one kept method under a
      path: one route, with the method's handlers, when its APIType names a
      verb, and none otherwise. */
  function Registration(path: string, m: MethodDesc): (r: seq<Route>)
    ensures |r| <= 1
    ensures forall x :: x in r <==> Dispatch(m.apiType) == Install(x.verb) && x.path == path && x.handlers == m.handlers
  {
    match Dispatch(m.apiType)
    case Install(v) => [Route(v, path, m.handlers)]
    case _ => []
  }

  /** The routes Register (useOverride false) or RegisterWithGroup (true)
      adds for the kept method m stored under name. */
  function RoutesOf(useOverride: bool): (string, MethodDesc) -> seq<Route>
  {
    (name, m) => Registration(PathOf(useOverride, name, m), m)
  }

  /** The "no api type" line a kept method logs when its APIType is
      Default. */
  function NoTypeLog(name: string, m: MethodDesc): (r: seq<Diagnostic>)
    ensures r == if m.apiType == Default then [NoApiType] else []
  {
    if Dispatch(m.apiType) == LogNoType then [NoApiType] else []
  }

  /** order lists every name in keys exactly once: one possible order of
      ranging over a map with those keys. */
  ghost predicate Enumerates(order: seq<string>, keys: set<string>)
  {
    (forall i, j :: 0 <= i < j < |order| ==> order[i] != order[j]) &&
    (forall k :: k in order <==> k in keys)
  }

  /** What ranging over kept in the given order produces: f of each entry,
      one after the other. */
  function Concat<X>(kept: map<string, MethodDesc>, order: seq<string>,
                     f: (string, MethodDesc) -> seq<X>): seq<X>
    requires forall k :: k in order ==> k in kept
  {
    if order == [] then []
    else
      var n := |order| - 1;
      Concat(kept, order[..n], f) + f(order[n], kept[order[n]])
  }

  lemma ConcatSnoc<X>(kept: map<string, MethodDesc>, order: seq<string>, k: string,
                      f: (string, MethodDesc) -> seq<X>)
    requires forall j :: j in order ==> j in kept
    requires k in kept
    ensures Concat(kept, order + [k], f) == Concat(kept, order, f) + f(k, kept[k])
  {
    assert (order + [k])[..|order|] == order;
  }

  /** The sum of f over the entries of kept whose names are in keys, in no
      particular order. */
  ghost function Gather<X>(kept: map<string, MethodDesc>, keys: set<string>,
                           f: (string, MethodDesc) -> seq<X>): multiset<X>
    requires keys <= kept.Keys
    decreases keys
  {
    if keys == {} then multiset{}
    else
      var k :| k in keys;
      multiset(f(k, kept[k])) + Gather(kept, keys - {k}, f)
  }

  /** Any entry may be taken first. */
  lemma {:induction false} GatherPick<X>(kept: map<string, MethodDesc>, keys: set<string>,
                                         f: (string, MethodDesc) -> seq<X>, k: string)
    requires keys <= kept.Keys && k in keys
    ensures Gather(kept, keys, f) == multiset(f(k, kept[k])) + Gather(kept, keys - {k}, f)
    decreases keys
  {
    var j :| j in keys && Gather(kept, keys, f) == multiset(f(j, kept[j])) + Gather(kept, keys - {j}, f);
    if j != k {
      GatherPick(kept, keys - {j}, f, k);
      GatherPick(kept, keys - {k}, f, j);
      assert keys - {j} - {k} == keys - {k} - {j};
    }
  }

  /** Whatever order the map is ranged in, the elements produced are the
      same, with the same multiplicities. */
  lemma {:induction false} EnumGather<X>(kept: map<string, MethodDesc>, order: seq<string>, keys: set<string>,
                                         f: (string, MethodDesc) -> seq<X>)
    requires keys <= kept.Keys && Enumerates(order, keys)
    ensures multiset(Concat(kept, order, f)) == Gather(kept, keys, f)
    decreases |order|
  {
    if order == [] {
      assert keys == {};
    } else {
      var n := |order| - 1;
      var last, front := order[n], order[..n];
      forall k ensures k in front <==> k in keys - {last} {
        if k in keys - {last} {
          var i :| 0 <= i < |order| && order[i] == k;
          assert front[i] == k;
        }
        if k in front {
          var i :| 0 <= i < n && front[i] == k;
          assert order[i] == k;
        }
      }
      EnumGather(kept, front, keys - {last}, f);
      GatherPick(kept, keys, f, last);
    }
  }

  /** An element of the sum comes from some entry. */
  lemma {:induction false} GatherFrom<X>(kept: map<string, MethodDesc>, keys: set<string>,
                                         f: (string, MethodDesc) -> seq<X>, x: X)
    requires keys <= kept.Keys && x in Gather(kept, keys, f)
    ensures exists k :: k in keys && x in f(k, kept[k])
    decreases keys
  {
    var k :| k in keys;
    GatherPick(kept, keys, f, k);
    if x !in f(k, kept[k]) {
      GatherFrom(kept, keys - {k}, f, x);
      var j :| j in keys - {k} && x in f(j, kept[j]);
      assert j in keys;
    }
  }

  /** What an entry contributes is in the sum. */
  lemma GatherHas<X>(kept: map<string, MethodDesc>, keys: set<string>,
                     f: (string, MethodDesc) -> seq<X>, x: X, k: string)
    requires keys <= kept.Keys && k in keys && x in f(k, kept[k])
    ensures x in Gather(kept, keys, f)
  {
    GatherPick(kept, keys, f, k);
  }

  /** When no entry contributes more than one element, the sum has at most
      one element per entry. */
  lemma {:induction false} GatherSize<X>(kept: map<string, MethodDesc>, keys: set<string>,
                                         f: (string, MethodDesc) -> seq<X>)
    requires keys <= kept.Keys
    requires forall k, m :: |f(k, m)| <= 1
    ensures |Gather(kept, keys, f)| <= |keys|
    decreases keys
  {
    if keys != {} {
      var k :| k in keys;
      GatherPick(kept, keys, f, k);
      GatherSize(kept, keys - {k}, f);
    }
  }

  /** Two contributions that agree on every entry have the same sum. */
  lemma {:induction false} GatherSame<X>(kept: map<string, MethodDesc>, keys: set<string>,
                                         f: (string, MethodDesc) -> seq<X>,
                                         g: (string, MethodDesc) -> seq<X>)
    requires keys <= kept.Keys
    requires forall k :: k in keys ==> f(k, kept[k]) == g(k, kept[k])
    ensures Gather(kept, keys, f) == Gather(kept, keys, g)
    decreases keys
  {
    if keys != {} {
      var k :| k in keys;
      GatherPick(kept, keys, f, k);
      GatherPick(kept, keys, g, k);
      GatherSame(kept, keys - {k}, f, g);
    }
  }

  /** The routes a registration of methods adds, in whatever order. */
  ghost function Added(methods: seq<MethodDesc>, useOverride: bool): multiset<Route>
  {
    Gather(Kept(methods), Kept(methods).Keys, RoutesOf(useOverride))
  }

  /** The "no api type" lines a registration of methods logs. */
  ghost function NoTypeLines(methods: seq<MethodDesc>): multiset<Diagnostic>
  {
    Gather(Kept(methods), Kept(methods).Keys, NoTypeLog)
  }

  /** x is the route the kept method m, stored under name, registers. */
  predicate Adds(useOverride: bool, name: string, m: MethodDesc, x: Route)
  {
    Dispatch(m.apiType) == Install(x.verb) && x.path == PathOf(useOverride, name, m) && x.handlers == m.handlers
  }

  /** A route is added exactly when some suitable method is kept under a
      name, its APIType selects the route's verb, its handlers are the
      route's handlers, and the route's path is the one PathOf chooses. */
  lemma AddedRoute(methods: seq<MethodDesc>, useOverride: bool, x: Route)
    ensures x in Added(methods, useOverride) <==>
      exists name :: name in Kept(methods) && Adds(useOverride, name, Kept(methods)[name], x)
  {
    if exists name :: name in Kept(methods) && Adds(useOverride, name, Kept(methods)[name], x) {
      var name :| name in Kept(methods) && Adds(useOverride, name, Kept(methods)[name], x);
      assert x in RoutesOf(useOverride)(name, Kept(methods)[name]);
      GatherHas(Kept(methods), Kept(methods).Keys, RoutesOf(useOverride), x, name);
    }
    if x in Added(methods, useOverride) {
      GatherFrom(Kept(methods), Kept(methods).Keys, RoutesOf(useOverride), x);
      var name :| name in Kept(methods) && x in RoutesOf(useOverride)(name, Kept(methods)[name]);
      assert x in Registration(PathOf(useOverride, name, Kept(methods)[name]), Kept(methods)[name]);
    }
  }

  /** A registration adds at most one route per kept method, so never more
      routes than the controller has methods. */
  lemma AddedBound(methods: seq<MethodDesc>, useOverride: bool)
    ensures |Added(methods, useOverride)| <= |Kept(methods)| <= |methods|
  {
    var kept := Kept(methods);
    forall k, m ensures |RoutesOf(useOverride)(k, m)| <= 1 {
      assert RoutesOf(useOverride)(k, m) == Registration(PathOf(useOverride, k, m), m);
    }
    GatherSize(kept, kept.Keys, RoutesOf(useOverride));
  }

  /** A "no api type" line is logged exactly when some kept method has the
      APIType Default. */
  lemma NoTypeLinesLogged(methods: seq<MethodDesc>)
    ensures NoApiType in NoTypeLines(methods) <==>
      exists name :: name in Kept(methods) && Kept(methods)[name].apiType == Default
  {
    if exists name :: name in Kept(methods) && Kept(methods)[name].apiType == Default {
      var name :| name in Kept(methods) && Kept(methods)[name].apiType == Default;
      GatherHas(Kept(methods), Kept(methods).Keys, NoTypeLog, NoApiType, name);
    }
    if NoApiType in NoTypeLines(methods) {
      GatherFrom(Kept(methods), Kept(methods).Keys, NoTypeLog, NoApiType);
      var name :| name in Kept(methods) && NoApiType in NoTypeLog(name, Kept(methods)[name]);
      assert Kept(methods)[name].apiType == Default;
    }
  }

  /** At most one "no api type" line per kept method. */
  lemma NoTypeLinesBound(methods: seq<MethodDesc>)
    ensures |NoTypeLines(methods)| <= |Kept(methods)|
  {
    GatherSize(Kept(methods), Kept(methods).Keys, NoTypeLog);
  }

  /** For methods that return no third value the two entry points register
      the same routes. */
  lemma SamePathsWithoutOverride(methods: seq<MethodDesc>)
    requires forall m :: m in methods ==> m.path.None?
    ensures Added(methods, true) == Added(methods, false)
  {
    var kept := Kept(methods);
    forall name | name in kept.Keys
      ensures RoutesOf(true)(name, kept[name]) == RoutesOf(false)(name, kept[name])
    {
      KeptValue(methods, name);
    }
    GatherSame(kept, kept.Keys, RoutesOf(true), RoutesOf(false));
  }

  /** The controller of tool_test.go: one exported method TestThisFunction
      that returns Get and its handlers; Register adds one GET route at
      "test_this_function" with those handlers. */
  lemma ExampleTestControllerRoute(methods: seq<MethodDesc>, a: string, b: string, c: string, hs: seq<HandlerId>)
    requires a == "Test" && b == "This" && c == "Function"
    requires methods == [MethodDesc(a + b + c, true, 1, Get, hs, None)]
    ensures Added(methods, false) == multiset{Route(GET, "test_this_function", hs)}
  {
    var kept := Kept(methods);
    var name := a + b + c;
    assert methods[..0] == [];
    assert kept == map[name := methods[0]];
    SnakeCase.ExampleTestController(a, b, c);
    GatherPick(kept, kept.Keys, RoutesOf(false), name);
    assert kept.Keys - {name} == {};
  }

  // ---------------------------------------------------------------------
  // Router groups and the router
  // ---------------------------------------------------------------------

  /** A gin router group, seen through the routes registered on it. */
  class RouterGroup {
    var routes: seq<Route>

    constructor ()
      ensures routes == []
    {
      routes := [];
    }

    /** group.GET(path, handlers...), group.POST(...), and so on. */
    method Handle(verb: Verb, path: string, handlers: seq<HandlerId>)
      modifies this
      ensures routes == old(routes) + [Route(verb, path, handlers)]
    {
      routes := routes + [Route(verb, path, handlers)];
    }
  }

  /** The switch on the APIType of one kept method: registers it on g at
      path under the verb its APIType selects, or reports that it is to be
      logged (Default), or does nothing. */
  method Switch(g: RouterGroup, path: string, m: MethodDesc) returns (logged: bool)
    modifies g
    ensures g.routes == old(g.routes) + Registration(path, m)
    ensures logged <==> m.apiType == Default
  {
    logged := false;
    if m.apiType == Get {
      g.Handle(GET, path, m.handlers);
    } else if m.apiType == Delete {
      g.Handle(DELETE, path, m.handlers);
    } else if m.apiType == Put {
      g.Handle(PUT, path, m.handlers);
    } else if m.apiType == Post {
      g.Handle(POST, path, m.handlers);
    } else if m.apiType == Patch {
      g.Handle(PATCH, path, m.handlers);
    } else if m.apiType == Options {
      g.Handle(OPTIONS, path, m.handlers);
    } else if m.apiType == Any {
      g.Handle(ANY, path, m.handlers);
    } else if m.apiType == Head {
      g.Handle(HEAD, path, m.handlers);
    } else if m.apiType == Default {
      logged := true;
    }
  }

  /** The loop shared by Register and RegisterWithGroup: ranges over the kept
      methods in some order (order, which the model leaves open) and runs the
      switch on each, registering on g. */
  method InstallAll(g: RouterGroup, kept: map<string, MethodDesc>, useOverride: bool)
    returns (log: seq<Diagnostic>, ghost order: seq<string>)
    modifies g
    ensures Enumerates(order, kept.Keys)
    ensures g.routes == old(g.routes) + Concat(kept, order, RoutesOf(useOverride))
    ensures log == Concat(kept, order, NoTypeLog)
  {
    log, order := [], [];
    ghost var start := g.routes;
    var remaining := kept.Keys;
    while remaining != {}
      invariant remaining <= kept.Keys
      invariant forall i, j :: 0 <= i < j < |order| ==> order[i] != order[j]
      invariant forall k :: k in order <==> k in kept && k !in remaining
      invariant g.routes == start + Concat(kept, order, RoutesOf(useOverride))
      invariant log == Concat(kept, order, NoTypeLog)
      decreases remaining
    {
      var name :| name in remaining;
      var m := kept[name];
      ghost var before := g.routes;
      var logged := Switch(g, PathOf(useOverride, name, m), m);
      if logged {
        log := log + [NoApiType];
      }
      ConcatSnoc(kept, order, name, RoutesOf(useOverride));
      ConcatSnoc(kept, order, name, NoTypeLog);
      assert RoutesOf(useOverride)(name, m) == Registration(PathOf(useOverride, name, m), m);
      assert (start + Concat(kept, order, RoutesOf(useOverride))) + RoutesOf(useOverride)(name, m)
          == start + (Concat(kept, order, RoutesOf(useOverride)) + RoutesOf(useOverride)(name, m));
      order := order + [name];
      remaining := remaining - {name};
    }
  }

  /** GinDIRouter: a router bound to one gin router group. */
  class GinDIRouter {
    var group: RouterGroup

    constructor (group: RouterGroup)
      ensures this.group == group
    {
      this.group := group;
    }

    /** Group, the getter. */
    function Group(): RouterGroup
      reads this
    {
      group
    }

    /** SetGroup: later calls to Group and Register use g; no group's routes
        change. */
    method SetGroup(g: RouterGroup)
      modifies this
      ensures Group() == g
    {
      group := g;
    }

    /** Register: keeps the suitable methods of the controller (logging those
        with the wrong number of inputs) and registers each on the router's
        own group at the snake-cased method name, ignoring any path the
        method returns. */
    method Register(methods: seq<MethodDesc>) returns (log: seq<Diagnostic>)
      modifies group
      ensures exists order ::
                Enumerates(order, Kept(methods).Keys) &&
                group.routes == old(group.routes) + Concat(Kept(methods), order, RoutesOf(false)) &&
                log == ArityLog(methods) + Concat(Kept(methods), order, NoTypeLog)
      ensures multiset(group.routes) == multiset(old(group.routes)) + Added(methods, false)
      ensures multiset(log) == multiset(ArityLog(methods)) + NoTypeLines(methods)
    {
      var kept, arity := SuitableMethods(methods, true);
      var noType: seq<Diagnostic>;
      ghost var order: seq<string>;
      noType, order := InstallAll(group, kept, false);
      log := arity + noType;
      EnumGather(kept, order, kept.Keys, RoutesOf(false));
      EnumGather(kept, order, kept.Keys, NoTypeLog);
    }

    /** RegisterWithGroup: as Register, but on the group g it is given, and at
        the snake-cased path the method returns when it returns one. The
        router's own group field is left as it is, and so are its routes
        unless it is g itself. */
    method RegisterWithGroup(methods: seq<MethodDesc>, g: RouterGroup) returns (log: seq<Diagnostic>)
      modifies g
      ensures group == old(group)
      ensures g != group ==> group.routes == old(group.routes)
      ensures exists order ::
                Enumerates(order, Kept(methods).Keys) &&
                g.routes == old(g.routes) + Concat(Kept(methods), order, RoutesOf(true)) &&
                log == ArityLog(methods) + Concat(Kept(methods), order, NoTypeLog)
      ensures multiset(g.routes) == multiset(old(g.routes)) + Added(methods, true)
      ensures multiset(log) == multiset(ArityLog(methods)) + NoTypeLines(methods)
    {
      var kept, arity := SuitableMethods(methods, true);
      var noType: seq<Diagnostic>;
      ghost var order: seq<string>;
      noType, order := InstallAll(g, kept, true);
      log := arity + noType;
      EnumGather(kept, order, kept.Keys, RoutesOf(true));
      EnumGather(kept, order, kept.Keys, NoTypeLog);
    }
  }
}
