/** `PutterMeta`: when a putter class is created, its `action_<name>` methods
    are collected into an `available_actions` registry with the declared
    `default_actions` first; calling a putter runs the named actions one after
    another in the caller's order. */
module Putter {
  import opened Common
  import opened PyStr
  import opened PyDict

  /** A class-body attribute: a function, identified by a number standing for
      its code, or any other value. */
  datatype Attr = Function(code: nat) | Value

  const ACTION_PREFIX := "action_"

  /** What the metaclass receives: the class body in definition order, and
      its `default_actions` entry if the body declares one. */
  datatype ClassBody = ClassBody(attrs: Dict<string, Attr>, defaultActions: Option<seq<string>>)

  /** The created class: its `default_actions` (the empty tuple when the body
      had none) and its `available_actions` registry, name to method code. */
  datatype PutterClass = PutterClass(defaultActions: seq<string>, availableActions: Dict<string, nat>)

  /** `attrs.setdefault('default_actions', ())` */
  function Defaults(body: ClassBody): seq<string> {
    if body.defaultActions.Some? then body.defaultActions.value else []
  }

  /** `name.split('_', maxsplit=1)[1]`: for a name starting with `action_` the
      first '_' is the one closing the prefix. */
  function ActionName(name: string): string
    requires StartsWith(name, ACTION_PREFIX)
  {
    name[|ACTION_PREFIX|..]
  }

  /** The `actions` dict the loop over the class body builds. */
  function ActionMethods(attrs: Dict<string, Attr>): (r: Dict<string, nat>)
    ensures Valid(r)
  {
    if attrs == [] then []
    else
      var acts := ActionMethods(attrs[..|attrs| - 1]);
      var (name, attr) := attrs[|attrs| - 1];
      if StartsWith(name, ACTION_PREFIX) && attr.Function? then
        PutValid(acts, ActionName(name), attr.code);
        Put(acts, ActionName(name), attr.code)
      else acts
  }

  function ActionCode(a: Option<Attr>): Option<nat> {
    match a
    case Some(Function(c)) => Some(c)
    case _ => None
  }

  /** The registry holds exactly the function attributes named `action_<k>`,
      keyed by `k`; an `action_` attribute that is not a function is left out. */
  lemma {:induction false} ActionMethodsSpec(attrs: Dict<string, Attr>, k: string)
    requires Valid(attrs)
    ensures Get(ActionMethods(attrs), k) == ActionCode(Get(attrs, ACTION_PREFIX + k))
  {
    if attrs != [] {
      var init := attrs[..|attrs| - 1];
      var (name, attr) := attrs[|attrs| - 1];
      ValidInit(attrs);
      ActionMethodsSpec(init, k);
      var key := ACTION_PREFIX + k;
      assert Get(attrs, key) == LastValue(attrs, key) by {
        GetValid(attrs, key);
      }
      assert Get(init, key) == LastValue(init, key) by {
        GetValid(init, key);
      }
      assert name == key <==> StartsWith(name, ACTION_PREFIX) && ActionName(name) == k by {
        if name == key {
          assert name[..|ACTION_PREFIX|] == ACTION_PREFIX;
        }
        if StartsWith(name, ACTION_PREFIX) && ActionName(name) == k {
          assert name == name[..|ACTION_PREFIX|] + name[|ACTION_PREFIX|..];
        }
      }
      if StartsWith(name, ACTION_PREFIX) && attr.Function? {
        PutGet(ActionMethods(init), ActionName(name), attr.code, k);
      } else if name == key {
        assert key !in KeySet(init);
        assert PairKeys(init) == KeySet(init);
        LastValueAbsent(init, key);
      }
    }
  }

  /** In a dict, the one pair with a key is also the last. */
  lemma {:induction false} GetValid<K(!new), V>(d: Dict<K, V>, k: K)
    requires Valid(d)
    ensures Get(d, k) == LastValue(d, k)
  {
    if d != [] {
      ValidTail(d);
      GetValid(d[1..], k);
      if d[0].0 == k {
        assert PairKeys(d[1..]) == KeySet(d[1..]);
        LastValueAbsent(d[1..], k);
        LastValueCons(d, k);
      } else {
        LastValueCons(d, k);
      }
    }
  }

  lemma {:induction false} LastValueCons<K(!new), V>(d: seq<(K, V)>, k: K)
    requires d != []
    ensures LastValue(d, k) == if LastValue(d[1..], k).Some? then LastValue(d[1..], k)
                                else if d[0].0 == k then Some(d[0].1) else None
    decreases |d|
  {
    if |d| > 1 {
      var init := d[..|d| - 1];
      LastValueCons(init, k);
      assert init[1..] == d[1..][..|d| - 2];
    }
  }

  /** `default_actions` names that have no `action_` method. */
  function MissedActions(defaults: seq<string>, actions: Dict<string, nat>): set<string> {
    set n | n in defaults && n !in KeySet(actions)
  }

  /** `set(actions) - set(default_actions)`, iterated in definition order. */
  function OtherActions(names: seq<string>, defaults: seq<string>): (r: seq<string>)
    ensures forall n :: n in r <==> n in names && n !in defaults
  {
    if names == [] then []
    else (if names[0] in defaults then [] else [names[0]]) + OtherActions(names[1..], defaults)
  }

  /** The `(name, actions[name])` pairs of the reordering comprehension. */
  function Entries(actions: Dict<string, nat>, names: seq<string>): (r: seq<(string, nat)>)
    requires forall n :: n in names ==> n in KeySet(actions)
    ensures Keys(r) == names
    ensures forall i :: 0 <= i < |r| ==> Get(actions, r[i].0) == Some(r[i].1)
  {
    if names == [] then []
    else [(names[0], Get(actions, names[0]).value)] + Entries(actions, names[1..])
  }

  lemma NoneMissed(defaults: seq<string>, actions: Dict<string, nat>)
    requires MissedActions(defaults, actions) == {}
    ensures forall n :: n in defaults + OtherActions(Keys(actions), defaults) ==> n in KeySet(actions)
  {
    KeysMembers(actions);
    forall n | n in defaults ensures n in KeySet(actions) {
      assert n !in MissedActions(defaults, actions);
    }
  }

  /** The reordered `available_actions`: the defaults, then the others. */
  function Registry(actions: Dict<string, nat>, defaults: seq<string>): Dict<string, nat>
    requires MissedActions(defaults, actions) == {}
  {
    NoneMissed(defaults, actions);
    FromPairs(Entries(actions, defaults + OtherActions(Keys(actions), defaults)))
  }

  /** `PutterMeta.__new__`, as a value: the class it creates, or the
      `NotImplementedError` naming the defaults without a method. */
  function MetaNew(body: ClassBody): Result<PutterClass> {
    var actions := ActionMethods(body.attrs);
    var defaults := Defaults(body);
    var missed := MissedActions(defaults, actions);
    if missed != {} then Failure(NotImplementedError(missed))
    else Success(PutterClass(defaults, Registry(actions, defaults)))
  }

  /** Class creation: the loop over the body, the check of the defaults, and
      the reordered registry. */
  method CreateClass(body: ClassBody) returns (r: Result<PutterClass>)
    ensures r == MetaNew(body)
  {
    var attrs := body.attrs;
    var actions: Dict<string, nat> := [];
    for i := 0 to |attrs|
      invariant actions == ActionMethods(attrs[..i])
    {
      assert attrs[..i + 1][..i] == attrs[..i];
      var (name, attr) := attrs[i];
      if StartsWith(name, ACTION_PREFIX) && attr.Function? {
        actions := Put(actions, ActionName(name), attr.code);
      }
    }
    assert attrs[..|attrs|] == attrs;
    var defaults := Defaults(body);
    var missed := MissedActions(defaults, actions);
    if missed != {} {
      return Failure(NotImplementedError(missed));
    }
    r := Success(PutterClass(defaults, Registry(actions, defaults)));
  }

  /** Creation fails exactly when a default has no method, and then names
      exactly those defaults. */
  lemma MetaNewRejectsMissing(body: ClassBody)
    ensures MetaNew(body).Failure? <==>
            exists n :: n in Defaults(body) && Get(ActionMethods(body.attrs), n).None?
    ensures MetaNew(body).Failure? ==>
            MetaNew(body).error ==
            NotImplementedError(set n | n in Defaults(body) && Get(ActionMethods(body.attrs), n).None?)
  {
    var acts := ActionMethods(body.attrs);
    var missed := MissedActions(Defaults(body), acts);
    assert missed == set n | n in Defaults(body) && Get(acts, n).None?;
    if missed != {} {
      var n :| n in missed;
      assert n in Defaults(body) && Get(acts, n).None?;
    } else {
      forall n | n in Defaults(body) ensures Get(acts, n).Some? {
        assert n !in missed;
      }
    }
  }

  /** A body without `default_actions` gets `()` and cannot fail. */
  lemma NoDefaultsAccepted(body: ClassBody)
    requires body.defaultActions.None?
    ensures MetaNew(body).Success? && MetaNew(body).value.defaultActions == []
  {
    assert MissedActions([], ActionMethods(body.attrs)) == {};
  }

  /** A body is accepted when each of its defaults names an `action_`
      function attribute. */
  lemma DefinedDefaultsAccepted(body: ClassBody)
    requires Valid(body.attrs)
    requires forall d :: d in Defaults(body) ==> ActionCode(Get(body.attrs, ACTION_PREFIX + d)).Some?
    ensures MetaNew(body).Success?
  {
    MetaNewRejectsMissing(body);
    forall n | n in Defaults(body) ensures Get(ActionMethods(body.attrs), n).Some? {
      ActionMethodsSpec(body.attrs, n);
    }
  }

  /** `action_<name>` methods, one per name, in order, numbered from 0. */
  function ActionAttrs(names: seq<string>): (r: Dict<string, Attr>)
    ensures |r| == |names|
    ensures forall i :: 0 <= i < |names| ==> r[i] == (ACTION_PREFIX + names[i], Function(i))
  {
    seq(|names|, i requires 0 <= i < |names| => (ACTION_PREFIX + names[i], Function(i)))
  }

  lemma PrefixedStartsWith(n: string)
    ensures StartsWith(ACTION_PREFIX + n, ACTION_PREFIX)
    ensures (ACTION_PREFIX + n)[|ACTION_PREFIX|..] == n
  {
    assert (ACTION_PREFIX + n)[..|ACTION_PREFIX|] == ACTION_PREFIX;
  }

  /** Distinct names give distinct `action_` attributes. */
  lemma ActionKeysDistinct(names: seq<string>)
    requires Distinct(names)
    ensures Distinct(Keys(ActionAttrs(names)))
  {
    var ks := Keys(ActionAttrs(names));
    forall i, j | 0 <= i < j < |ks| ensures ks[i] != ks[j] {
      PrefixedStartsWith(names[i]);
      PrefixedStartsWith(names[j]);
    }
  }

  /** No `action_` attribute clashes with an attribute that is not one. */
  lemma ActionKeysFresh(data: Dict<string, Attr>, names: seq<string>)
    requires forall i :: 0 <= i < |data| ==> !StartsWith(data[i].0, ACTION_PREFIX)
    ensures forall x :: x in Keys(ActionAttrs(names)) ==> x !in Keys(data)
  {
    var ks := Keys(ActionAttrs(names));
    forall x | x in ks ensures x !in Keys(data) {
      var i :| 0 <= i < |ks| && ks[i] == x;
      PrefixedStartsWith(names[i]);
    }
  }

  lemma KeysAppend<K(!new), V>(a: Dict<K, V>, b: Dict<K, V>)
    ensures Keys(a + b) == Keys(a) + Keys(b)
  {
    assert forall i :: 0 <= i < |a + b| ==> Keys(a + b)[i] == (Keys(a) + Keys(b))[i];
  }

  /** A body made of attributes that are not actions, followed by one
      `action_` method per distinct name, is a valid dict. */
  lemma ActionBodyValid(data: Dict<string, Attr>, names: seq<string>)
    requires Valid(data) && Distinct(names)
    requires forall i :: 0 <= i < |data| ==> !StartsWith(data[i].0, ACTION_PREFIX)
    ensures Valid(data + ActionAttrs(names))
  {
    ActionKeysDistinct(names);
    ActionKeysFresh(data, names);
    DistinctAppend(Keys(data), Keys(ActionAttrs(names)));
    KeysAppend(data, ActionAttrs(names));
  }

  /** Such a body is accepted when every default is one of the names. */
  lemma ActionBodyAccepted(data: Dict<string, Attr>, names: seq<string>, defaults: seq<string>)
    requires Valid(data) && Distinct(names)
    requires forall i :: 0 <= i < |data| ==> !StartsWith(data[i].0, ACTION_PREFIX)
    requires forall d :: d in defaults ==> d in names
    ensures MetaNew(ClassBody(data + ActionAttrs(names), Some(defaults))).Success?
  {
    var attrs := data + ActionAttrs(names);
    ActionBodyValid(data, names);
    var body := ClassBody(attrs, Some(defaults));
    forall d | d in Defaults(body) ensures ActionCode(Get(body.attrs, ACTION_PREFIX + d)).Some? {
      var j :| 0 <= j < |names| && names[j] == d;
      GetAt(attrs, |data| + j);
      assert attrs[|data| + j] == (ACTION_PREFIX + d, Function(j));
    }
    DefinedDefaultsAccepted(body);
  }

  /** The order the reordering comprehension visits the action names in. */
  function RegistryOrder(body: ClassBody): seq<string> {
    var defaults := Defaults(body);
    defaults + OtherActions(Keys(ActionMethods(body.attrs)), defaults)
  }

  /** The registry holds the same methods as the class body, with the
      defaults first in their declared order and every other action after
      them. */
  lemma MetaNewRegistry(body: ClassBody)
    requires MetaNew(body).Success?
    ensures var p := MetaNew(body).value;
            var acts := ActionMethods(body.attrs);
            && KeySet(p.availableActions) == KeySet(acts)
            && (forall k :: Get(p.availableActions, k) == Get(acts, k))
            && (Distinct(p.defaultActions) ==>
                  |p.defaultActions| <= |p.availableActions| &&
                  Keys(p.availableActions)[..|p.defaultActions|] == p.defaultActions)
  {
    var acts := ActionMethods(body.attrs);
    var defaults := Defaults(body);
    assert MissedActions(defaults, acts) == {};
    RegistryProperties(acts, defaults);
  }

  lemma RegistryProperties(acts: Dict<string, nat>, defaults: seq<string>)
    requires MissedActions(defaults, acts) == {}
    requires Valid(acts)
    ensures KeySet(Registry(acts, defaults)) == KeySet(acts)
    ensures forall k :: Get(Registry(acts, defaults), k) == Get(acts, k)
    ensures Distinct(defaults) ==>
              |defaults| <= |Registry(acts, defaults)| &&
              Keys(Registry(acts, defaults))[..|defaults|] == defaults
  {
    var order := defaults + OtherActions(Keys(acts), defaults);
    NoneMissed(defaults, acts);
    var es := Entries(acts, order);
    assert Registry(acts, defaults) == FromPairs(es);
    RegistrySameMethods(acts, defaults, order, es);
    if Distinct(defaults) {
      RegistryDefaultsFirst(acts, defaults, order, es);
    }
  }

  lemma RegistrySameMethods(acts: Dict<string, nat>, defaults: seq<string>, order: seq<string>, es: seq<(string, nat)>)
    requires order == defaults + OtherActions(Keys(acts), defaults)
    requires forall n :: n in order ==> n in KeySet(acts)
    requires es == Entries(acts, order)
    ensures KeySet(FromPairs(es)) == KeySet(acts)
    ensures forall k :: Get(FromPairs(es), k) == Get(acts, k)
  {
    EntriesCover(acts, defaults, order, es);
    forall k ensures Get(FromPairs(es), k) == Get(acts, k) {
      EntriesGet(acts, order, es, k);
    }
  }

  lemma EntriesCover(acts: Dict<string, nat>, defaults: seq<string>, order: seq<string>, es: seq<(string, nat)>)
    requires order == defaults + OtherActions(Keys(acts), defaults)
    requires forall n :: n in order ==> n in KeySet(acts)
    requires es == Entries(acts, order)
    ensures PairKeys(es) == KeySet(acts)
  {
    KeysMembers(acts);
    forall n | n in KeySet(acts) ensures n in PairKeys(es) {
      assert n in order;
      var j :| 0 <= j < |order| && order[j] == n;
      assert Keys(es)[j] == n;
    }
    forall n | n in PairKeys(es) ensures n in KeySet(acts) {
      var j :| 0 <= j < |es| && es[j].0 == n;
      assert Keys(es)[j] == n;
      assert order[j] == n;
    }
  }

  lemma EntriesGet(acts: Dict<string, nat>, order: seq<string>, es: seq<(string, nat)>, k: string)
    requires forall n :: n in order ==> n in KeySet(acts)
    requires es == Entries(acts, order)
    requires PairKeys(es) == KeySet(acts)
    ensures Get(FromPairs(es), k) == Get(acts, k)
  {
    var got := LastValue(es, k);
    if got.Some? {
      LastValueMember(es, k);
    } else if k in KeySet(acts) {
      var j :| 0 <= j < |es| && es[j].0 == k;
      LastValueAbsentConverse(es, k, j);
    }
  }

  lemma {:induction false} LastValueAbsentConverse<V>(ps: seq<(string, V)>, k: string, j: nat)
    requires j < |ps| && ps[j].0 == k
    ensures LastValue(ps, k).Some?
  {
    if ps[|ps| - 1].0 != k {
      LastValueAbsentConverse(ps[..|ps| - 1], k, j);
    }
  }

  lemma RegistryDefaultsFirst(acts: Dict<string, nat>, defaults: seq<string>, order: seq<string>, es: seq<(string, nat)>)
    requires order == defaults + OtherActions(Keys(acts), defaults)
    requires forall n :: n in order ==> n in KeySet(acts)
    requires es == Entries(acts, order)
    requires Valid(acts) && Distinct(defaults)
    ensures |defaults| <= |FromPairs(es)| && Keys(FromPairs(es))[..|defaults|] == defaults
  {
    var others := OtherActions(Keys(acts), defaults);
    OtherActionsDistinct(Keys(acts), defaults);
    DistinctAppend(defaults, others);
    FromPairsKeys(es);
    assert order[..|defaults|] == defaults;
  }

  lemma DistinctAppend(a: seq<string>, b: seq<string>)
    requires Distinct(a) && Distinct(b)
    requires forall x :: x in b ==> x !in a
    ensures Distinct(a + b)
  {
    var c := a + b;
    forall i, j | 0 <= i < j < |c| ensures c[i] != c[j] {
      if i < |a| <= j {
        assert c[j] == b[j - |a|];
        assert c[j] in b;
      } else if |a| <= i {
        assert c[i] == b[i - |a|] && c[j] == b[j - |a|];
      }
    }
  }

  lemma {:induction false} LastValueMember<V>(ps: seq<(string, V)>, k: string)
    requires LastValue(ps, k).Some?
    ensures exists i :: 0 <= i < |ps| && ps[i] == (k, LastValue(ps, k).value)
  {
    if ps[|ps| - 1].0 != k {
      var init := ps[..|ps| - 1];
      LastValueMember(init, k);
      var i :| 0 <= i < |init| && init[i] == (k, LastValue(init, k).value);
      assert ps[i] == init[i];
    }
  }

  lemma {:induction false} OtherActionsDistinct(names: seq<string>, defaults: seq<string>)
    requires Distinct(names)
    ensures Distinct(OtherActions(names, defaults))
  {
    if names != [] {
      OtherActionsDistinct(names[1..], defaults);
      assert names[0] !in names[1..] by {
        forall j | 0 <= j < |names| - 1 ensures names[1..][j] != names[0] {
          assert names[1..][j] == names[j + 1];
        }
      }
      var rest := OtherActions(names[1..], defaults);
      var r := OtherActions(names, defaults);
      if names[0] !in defaults {
        forall i, j | 0 <= i < j < |r| ensures r[i] != r[j] {
          if i == 0 {
            assert r[j] == rest[j - 1];
            assert r[j] in rest;
          } else {
            assert r[i] == rest[i - 1] && r[j] == rest[j - 1];
          }
        }
      }
    }
  }

  /** `__ExamplePutter`: defaults `('x', 'a')` and methods `a`, `b`, `x`. */
  const EXAMPLE_PUTTER := ClassBody(
    [("__doc__", Value), ("default_actions", Value),
     ("action_a", Function(0)), ("action_b", Function(1)), ("action_x", Function(2))],
    Some(["x", "a"]))

  lemma ExampleNames()
    ensures !StartsWith("__doc__", ACTION_PREFIX) && !StartsWith("default_actions", ACTION_PREFIX)
    ensures ActionName("action_a") == "a" && ActionName("action_b") == "b" && ActionName("action_x") == "x"
  {
    assert "__doc__"[..7][0] != ACTION_PREFIX[0];
    assert "default_actions"[..7][0] != ACTION_PREFIX[0];
  }

  /** The two plain attributes register nothing, `action_a` registers `a`. */
  lemma ExampleActionsHead()
    ensures ActionMethods(EXAMPLE_PUTTER.attrs[..3]) == [("a", 0)]
  {
    var attrs := EXAMPLE_PUTTER.attrs;
    ExampleNames();
    assert attrs[..1][..0] == [];
    assert ActionMethods(attrs[..1]) == [];
    assert attrs[..2][..1] == attrs[..1];
    assert ActionMethods(attrs[..2]) == [];
    assert attrs[..3][..2] == attrs[..2];
  }

  lemma ExampleActions()
    ensures ActionMethods(EXAMPLE_PUTTER.attrs) == [("a", 0), ("b", 1), ("x", 2)]
  {
    var attrs := EXAMPLE_PUTTER.attrs;
    ExampleNames();
    ExampleActionsHead();
    assert attrs[..4][..3] == attrs[..3];
    assert Put([("a", 0)], "b", 1) == [("a", 0)] + Put([], "b", 1);
    assert ActionMethods(attrs[..4]) == [("a", 0), ("b", 1)];
    assert attrs[..5][..4] == attrs[..4];
    assert Put([("a", 0), ("b", 1)], "x", 2) == [("a", 0)] + Put([("b", 1)], "x", 2);
    assert Put([("b", 1)], "x", 2) == [("b", 1)] + Put([], "x", 2);
    assert attrs[..5] == attrs;
  }

  lemma ExampleOrder(acts: Dict<string, nat>)
    requires acts == [("a", 0), ("b", 1), ("x", 2)]
    ensures MissedActions(["x", "a"], acts) == {}
    ensures OtherActions(Keys(acts), ["x", "a"]) == ["b"]
  {
    assert acts[0].0 == "a" && acts[1].0 == "b" && acts[2].0 == "x";
    assert "x" in KeySet(acts) && "a" in KeySet(acts);
    assert Keys(acts) == ["a", "b", "x"];
    assert OtherActions(["x"], ["x", "a"]) == [];
    assert OtherActions(["b", "x"], ["x", "a"]) == ["b"];
  }

  lemma ExampleKeys(acts: Dict<string, nat>)
    requires acts == [("a", 0), ("b", 1), ("x", 2)]
    requires MissedActions(["x", "a"], acts) == {}
    ensures Keys(Registry(acts, ["x", "a"])) == ["x", "a", "b"]
  {
    ExampleOrder(acts);
    NoneMissed(["x", "a"], acts);
    assert ["x", "a"] + OtherActions(Keys(acts), ["x", "a"]) == ["x", "a", "b"];
    var es := Entries(acts, ["x", "a", "b"]);
    FromPairsKeys(es);
    assert Registry(acts, ["x", "a"]) == FromPairs(es);
  }

  /** Its registry lists `x`, `a`, then `b`. */
  lemma ExampleRegistry()
    ensures MetaNew(EXAMPLE_PUTTER).Success?
    ensures Keys(MetaNew(EXAMPLE_PUTTER).value.availableActions) == ["x", "a", "b"]
  {
    var acts: Dict<string, nat> := [("a", 0), ("b", 1), ("x", 2)];
    ExampleActions();
    ExampleOrder(acts);
    ExampleKeys(acts);
    assert Defaults(EXAMPLE_PUTTER) == ["x", "a"];
  }

  /** What `_putter_call` does with `actions`: the codes of the methods it
      ran, in order, and how it ended.  `run(c)` is the exception the method
      with code `c` raises, if any. */
  function CallSpec(registry: Dict<string, nat>, actions: seq<string>, run: nat -> Option<Error>): (seq<nat>, Result<()>) {
    if actions == [] then ([], Success(()))
    else
      match Get(registry, actions[0])
      case None => ([], Failure(KeyError(actions[0])))
      case Some(c) =>
        if run(c).Some? then ([c], Failure(run(c).value))
        else
          var rest := CallSpec(registry, actions[1..], run);
          ([c] + rest.0, rest.1)
  }

  /** `_putter_call`: the named actions one after another. */
  method Call(p: PutterClass, actions: seq<string>, run: nat -> Option<Error>) returns (ran: seq<nat>, r: Result<()>)
    ensures (ran, r) == CallSpec(p.availableActions, actions, run)
  {
    ran := [];
    var i := 0;
    assert actions[0..] == actions;
    while i < |actions|
      invariant 0 <= i <= |actions|
      invariant CallSpec(p.availableActions, actions, run).0 == ran + CallSpec(p.availableActions, actions[i..], run).0
      invariant CallSpec(p.availableActions, actions, run).1 == CallSpec(p.availableActions, actions[i..], run).1
    {
      assert actions[i..][1..] == actions[i + 1..];
      assert actions[i..][0] == actions[i];
      var code := Get(p.availableActions, actions[i]);
      if code.None? {
        assert CallSpec(p.availableActions, actions[i..], run) == ([], Failure(KeyError(actions[i])));
        assert ran + [] == ran;
        return ran, Failure(KeyError(actions[i]));
      }
      ran := ran + [code.value];
      var err := run(code.value);
      if err.Some? {
        return ran, Failure(err.value);
      }
      i := i + 1;
    }
    assert actions[i..] == [];
    assert ran + [] == ran;
    return ran, Success(());
  }

  /** The method codes of `names`, in order. */
  function Codes(registry: Dict<string, nat>, names: seq<string>): seq<nat>
    requires forall n :: n in names ==> n in KeySet(registry)
  {
    if names == [] then [] else [Get(registry, names[0]).value] + Codes(registry, names[1..])
  }

  /** With every name registered and no action raising, each named action
      runs once, in the caller's order. */
  lemma {:induction false} CallRunsInOrder(registry: Dict<string, nat>, actions: seq<string>, run: nat -> Option<Error>)
    requires forall n :: n in actions ==> n in KeySet(registry)
    requires forall c :: run(c).None?
    ensures CallSpec(registry, actions, run) == (Codes(registry, actions), Success(()))
  {
    if actions != [] {
      CallRunsInOrder(registry, actions[1..], run);
    }
  }

  /** An unregistered name raises `KeyError` after the actions before it have
      run, and nothing after it runs. */
  lemma {:induction false} CallStopsAtUnknown(registry: Dict<string, nat>, actions: seq<string>, j: nat, run: nat -> Option<Error>)
    requires j < |actions| && actions[j] !in KeySet(registry)
    requires forall n :: n in actions[..j] ==> n in KeySet(registry)
    requires forall c :: run(c).None?
    ensures CallSpec(registry, actions, run) == (Codes(registry, actions[..j]), Failure(KeyError(actions[j])))
  {
    if j > 0 {
      assert actions[1..][..j - 1] == actions[..j][1..];
      CallStopsAtUnknown(registry, actions[1..], j - 1, run);
    }
  }
}
