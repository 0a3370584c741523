/** The directives plugin: `normalizeDirectives`, which converts the
    `directives` option between an ordered list of `{ name, args? }` and a
    name-keyed object, and the four configuration hooks that store the
    normalised directives under `extensions.directives`. */
module Directives {
  import opened Wrappers
  import opened Js
  import opened AssocList

  /** One element of an ordered directive list: `{ name, args? }`. */
  datatype Directive = Directive(name: string, args: Option<Value>)

  /** The two shapes directives come in: an ordered list, or an object keyed
      by directive name. The grouped form produced in unordered mode is an
      object whose values are arrays of argument objects. */
  datatype DirectiveSpec =
    | List(items: seq<Directive>)
    | Record(entries: seq<(string, Value)>)

  /** A directive's arguments with `?? {}` applied. */
  function ArgsOf(d: Directive): Value {
    Coalesce(d.args, EmptyObject)
  }

  // ---------------------------------------------------------------------
  // Reference definitions the grouping is proved against

  /** The names of the directives, in list order. */
  function Names(ds: seq<Directive>): (ns: seq<string>)
    ensures |ns| == |ds|
    ensures forall i :: 0 <= i < |ds| ==> ns[i] == ds[i].name
  {
    if |ds| == 0 then [] else Names(ds[..|ds| - 1]) + [ds[|ds| - 1].name]
  }

  /** The arguments (with `?? {}`) of the directives named `n`, in list order. */
  function ArgsNamed(ds: seq<Directive>, n: string): seq<Value> {
    if |ds| == 0 then []
    else if ds[|ds| - 1].name == n then ArgsNamed(ds[..|ds| - 1], n) + [ArgsOf(ds[|ds| - 1])]
    else ArgsNamed(ds[..|ds| - 1], n)
  }

  /** The elements of `s` in order of first occurrence. */
  function Dedup(s: seq<string>): seq<string> {
    if |s| == 0 then []
    else if s[|s| - 1] in Dedup(s[..|s| - 1]) then Dedup(s[..|s| - 1])
    else Dedup(s[..|s| - 1]) + [s[|s| - 1]]
  }

  /** The total number of argument entries over all groups. */
  function TotalArgs(g: seq<(string, seq<Value>)>): nat {
    if |g| == 0 then 0 else |g[0].1| + TotalArgs(g[1..])
  }

  // ---------------------------------------------------------------------
  // Grouping a list by name (the `reduce` of unordered mode)

  /** The group of `d.name` after `d` is pushed onto it (`push(args ?? {})`)
      or starts it (`[args ?? {}]`). */
  function Pushed(g: seq<(string, seq<Value>)>, d: Directive): seq<Value> {
    match Lookup(g, d.name)
    case Some(prev) => prev + [ArgsOf(d)]
    case None => [ArgsOf(d)]
  }

  /** The grouping `directives.reduce(...)` from an accumulator that
      inherits no properties: the intended grouping. `GroupAsWritten` below
      is the reduce from `{}` as written. */
  function Group(ds: seq<Directive>): (g: seq<(string, seq<Value>)>)
    ensures UniqueKeys(g)
  {
    if |ds| == 0 then []
    else
      var g := Group(ds[..|ds| - 1]);
      var d := ds[|ds| - 1];
      PutKeepsUnique(g, d.name, Pushed(g, d));
      Put(g, d.name, Pushed(g, d))
  }

  /** The group of each name holds exactly the arguments of the directives
      with that name, in list order; names not in the list have no group. */
  lemma {:induction false} GroupLookup(ds: seq<Directive>, n: string)
    ensures Lookup(Group(ds), n) == (if n in Names(ds) then Some(ArgsNamed(ds, n)) else None)
  {
    if |ds| > 0 {
      var init := ds[..|ds| - 1];
      GroupLookup(init, n);
      if n == ds[|ds| - 1].name {
        GroupLookupLast(ds);
      } else {
        GroupLookupOther(ds, n);
      }
    }
  }

  /** Inductive step of `GroupLookup` for the name of the last directive. */
  lemma GroupLookupLast(ds: seq<Directive>)
    requires |ds| > 0
    requires var n := ds[|ds| - 1].name; var init := ds[..|ds| - 1];
      Lookup(Group(init), n) == (if n in Names(init) then Some(ArgsNamed(init, n)) else None)
    ensures var n := ds[|ds| - 1].name; Lookup(Group(ds), n) == Some(ArgsNamed(ds, n))
  {
    var init := ds[..|ds| - 1];
    var d := ds[|ds| - 1];
    var g := Group(init);
    assert Lookup(Group(ds), d.name) == Some(Pushed(g, d));
    assert ArgsNamed(ds, d.name) == ArgsNamed(init, d.name) + [ArgsOf(d)];
    if d.name in Names(init) {
      assert Pushed(g, d) == ArgsNamed(init, d.name) + [ArgsOf(d)];
    } else {
      ArgsNamedAbsent(init, d.name);
      assert Lookup(g, d.name) == None;
      assert Pushed(g, d) == [ArgsOf(d)];
      assert ArgsNamed(init, d.name) + [ArgsOf(d)] == [ArgsOf(d)];
    }
  }

  /** Inductive step of `GroupLookup` for any other name. */
  lemma GroupLookupOther(ds: seq<Directive>, n: string)
    requires |ds| > 0 && n != ds[|ds| - 1].name
    requires var init := ds[..|ds| - 1];
      Lookup(Group(init), n) == (if n in Names(init) then Some(ArgsNamed(init, n)) else None)
    ensures Lookup(Group(ds), n) == (if n in Names(ds) then Some(ArgsNamed(ds, n)) else None)
  {
    var init := ds[..|ds| - 1];
    assert Names(ds) == Names(init) + [ds[|ds| - 1].name];
  }

  /** The group keys are the directive names, each once, in order of first
      occurrence. */
  lemma {:induction false} GroupKeys(ds: seq<Directive>)
    ensures Keys(Group(ds)) == Dedup(Names(ds))
  {
    if |ds| > 0 {
      var init := ds[..|ds| - 1];
      var d := ds[|ds| - 1];
      GroupKeys(init);
      PutKeys(Group(init), d.name, Pushed(Group(init), d));
      assert Names(ds)[..|ds| - 1] == Names(init);
      GroupLookup(init, d.name);
      DedupMembers(Names(init));
    }
  }

  /** `Dedup` keeps exactly the elements of its input. */
  lemma {:induction false} DedupMembers(s: seq<string>)
    ensures forall x :: x in Dedup(s) <==> x in s
  {
    if |s| > 0 {
      DedupMembers(s[..|s| - 1]);
      assert s == s[..|s| - 1] + [s[|s| - 1]];
    }
  }

  /** The key set of the grouped object is the set of directive names. */
  lemma GroupKeySet(ds: seq<Directive>)
    ensures forall n :: n in Keys(Group(ds)) <==> n in Names(ds)
  {
    GroupKeys(ds);
    DedupMembers(Names(ds));
  }

  /** Writing a key changes the total by the difference in group sizes. */
  lemma {:induction false} TotalArgsPut(g: seq<(string, seq<Value>)>, k: string, v: seq<Value>)
    ensures TotalArgs(Put(g, k, v)) ==
            TotalArgs(g) + |v| - (match Lookup(g, k) case Some(w) => |w| case None => 0)
  {
    if |g| > 0 && g[0].0 != k {
      TotalArgsPut(g[1..], k, v);
      assert Put(g, k, v)[1..] == Put(g[1..], k, v);
    }
  }

  /** Every directive contributes exactly one argument entry. */
  lemma {:induction false} GroupTotal(ds: seq<Directive>)
    ensures TotalArgs(Group(ds)) == |ds|
  {
    if |ds| > 0 {
      var init := ds[..|ds| - 1];
      var d := ds[|ds| - 1];
      GroupTotal(init);
      var g := Group(init);
      TotalArgsPut(g, d.name, Pushed(g, d));
    }
  }

  /** With distinct names, the directive at position `i` is the only one
      named `ds[i].name`. */
  lemma {:induction false} ArgsNamedDistinct(ds: seq<Directive>, i: nat)
    requires Distinct(Names(ds))
    requires i < |ds|
    ensures ArgsNamed(ds, ds[i].name) == [ArgsOf(ds[i])]
  {
    var init := ds[..|ds| - 1];
    assert Names(init) == Names(ds)[..|ds| - 1];
    if i == |ds| - 1 {
      ArgsNamedAbsent(init, ds[i].name);
    } else {
      ArgsNamedDistinct(init, i);
    }
  }

  /** A name that does not occur has no arguments. */
  lemma {:induction false} ArgsNamedAbsent(ds: seq<Directive>, n: string)
    requires n !in Names(ds)
    ensures ArgsNamed(ds, n) == []
  {
    if |ds| > 0 {
      var init := ds[..|ds| - 1];
      assert Names(init) == Names(ds)[..|ds| - 1];
      assert n != Names(ds)[|ds| - 1];
      ArgsNamedAbsent(init, n);
    }
  }

  /** A list whose names are all distinct groups into singleton arrays: the
      group of the directive at position `i` holds only its own arguments. */
  lemma GroupDistinctSingleton(ds: seq<Directive>, i: nat)
    requires Distinct(Names(ds))
    requires i < |ds|
    ensures Lookup(Group(ds), ds[i].name) == Some([ArgsOf(ds[i])])
  {
    GroupLookup(ds, ds[i].name);
    assert Names(ds)[i] == ds[i].name;
    ArgsNamedDistinct(ds, i);
  }

  // ---------------------------------------------------------------------
  // normalizeDirectives

  /** The grouped object of unordered mode: each group becomes an array. */
  function Grouped(ds: seq<Directive>): (e: seq<(string, Value)>)
    ensures Keys(e) == Dedup(Names(ds))
    ensures forall n :: Lookup(e, n) == (if n in Names(ds) then Some(Arr(ArgsNamed(ds, n))) else None)
  {
    GroupKeys(ds);
    GroupKeySet(ds);
    var e := MapValues(Group(ds), (args: seq<Value>) => Arr(args));
    assert forall n :: Lookup(e, n) == (if n in Names(ds) then Some(Arr(ArgsNamed(ds, n))) else None) by {
      forall n ensures Lookup(e, n) == (if n in Names(ds) then Some(Arr(ArgsNamed(ds, n))) else None) {
        GroupLookup(ds, n);
      }
    }
    e
  }

  /** `Object.keys(directives).map((name) => ({ name, args: directives[name] }))`. */
  function RecordToList(entries: seq<(string, Value)>): (ds: seq<Directive>)
    ensures Names(ds) == Keys(entries)
  {
    seq(|entries|, i requires 0 <= i < |entries| => Directive(entries[i].0, Some(entries[i].1)))
  }

  /** `normalizeDirectives`, with `useGraphQLToolsUnorderedDirectives` as
      `unordered`. */
  function Normalize(unordered: bool, d: DirectiveSpec): (r: DirectiveSpec)
    // unordered mode: objects pass through, lists are grouped by name
    ensures unordered && d.Record? ==> r == d
    ensures unordered && d.List? ==>
      && r.Record?
      && Keys(r.entries) == Dedup(Names(d.items))
      && forall n :: Lookup(r.entries, n) ==
           (if n in Names(d.items) then Some(Arr(ArgsNamed(d.items, n))) else None)
    // ordered mode: lists pass through, objects become lists in key order
    ensures !unordered && d.List? ==> r == d
    ensures !unordered && d.Record? ==>
      && r.List?
      && |r.items| == |d.entries|
      && forall i :: 0 <= i < |d.entries| ==>
           r.items[i].name == d.entries[i].0 && r.items[i].args == Some(d.entries[i].1)
  {
    if unordered then
      match d
      case List(items) => Record(Grouped(items))
      case Record(_) => d
    else
      match d
      case List(_) => d
      case Record(entries) => List(RecordToList(entries))
  }

  /** Normalising twice in the same mode is the same as normalising once:
      the output of each mode is a shape that mode passes through. */
  lemma NormalizeIdempotent(unordered: bool, d: DirectiveSpec)
    ensures Normalize(unordered, Normalize(unordered, d)) == Normalize(unordered, d)
  {
  }

  /** In ordered mode, the directive carrying key `n` of a well-formed object
      carries that key's value as its arguments. */
  lemma RecordToListLookup(entries: seq<(string, Value)>, n: string)
    requires UniqueKeys(entries)
    requires n in Keys(entries)
    ensures exists i :: 0 <= i < |RecordToList(entries)| &&
              RecordToList(entries)[i] == Directive(n, Lookup(entries, n))
  {
    var i := LookupIndex(entries, n);
    assert RecordToList(entries)[i] == Directive(n, Lookup(entries, n));
  }

  // ---------------------------------------------------------------------
  // The grouping reduce as written: `obj` starts as `{}`, which inherits the
  // properties of `Object.prototype`

  /** The property names a fresh `{}` inherits from `Object.prototype`; each
      reads as a truthy function or object. */
  const ObjectPrototypeKeys: set<string> := {
    "constructor", "__proto__", "__defineGetter__", "__defineSetter__",
    "__lookupGetter__", "__lookupSetter__", "hasOwnProperty", "isPrototypeOf",
    "propertyIsEnumerable", "toLocaleString", "toString", "valueOf"
  }

  /** `obj[name].push is not a function`. */
  datatype TypeError = PushNotAFunction(name: string)

  /** One step of the reduce as written, where `inherited` are the names the
      accumulator reads through its prototype (`ObjectPrototypeKeys` for the
      `{}` the source starts from): `obj[name]` is truthy for an own key and
      for an inherited one, and pushing onto an inherited value throws. */
  function AddDirectiveAsWritten(inherited: set<string>, g: seq<(string, seq<Value>)>, d: Directive)
    : Result<seq<(string, seq<Value>)>, TypeError>
  {
    if d.name in Keys(g) then Ok(Put(g, d.name, Pushed(g, d)))
    else if d.name in inherited then Err(PushNotAFunction(d.name))
    else Ok(Put(g, d.name, Pushed(g, d)))
  }

  /** `directives.reduce(...)` as written, from an accumulator inheriting
      the names `inherited`. */
  function GroupAsWritten(inherited: set<string>, ds: seq<Directive>): Result<seq<(string, seq<Value>)>, TypeError> {
    if |ds| == 0 then Ok([])
    else
      var g :- GroupAsWritten(inherited, ds[..|ds| - 1]);
      AddDirectiveAsWritten(inherited, g, ds[|ds| - 1])
  }

  /** No directive is named after one of the names `inherited`. */
  predicate NoneInherited(inherited: set<string>, ds: seq<Directive>) {
    forall i :: 0 <= i < |ds| ==> ds[i].name !in inherited
  }

  /** The reduce as written agrees with `Group` exactly when no directive is
      named after an inherited property (with `ObjectPrototypeKeys`: a
      property of `Object.prototype`), and throws otherwise. */
  lemma {:induction false} GroupAsWrittenAgrees(inherited: set<string>, ds: seq<Directive>)
    ensures GroupAsWritten(inherited, ds).Ok? <==> NoneInherited(inherited, ds)
    ensures GroupAsWritten(inherited, ds).Ok? ==> GroupAsWritten(inherited, ds).value == Group(ds)
  {
    if |ds| > 0 {
      var init := ds[..|ds| - 1];
      var d := ds[|ds| - 1];
      GroupAsWrittenAgrees(inherited, init);
      NoneInheritedSnoc(inherited, ds);
      if GroupAsWritten(inherited, init).Ok? {
        assert GroupAsWritten(inherited, ds) == AddDirectiveAsWritten(inherited, Group(init), d);
        AddDirectiveAsWrittenStep(inherited, init, d);
        assert init + [d] == ds;
      }
    }
  }

  /** A list has no inherited name iff its prefix has none and its last
      directive's name is not inherited. */
  lemma NoneInheritedSnoc(inherited: set<string>, ds: seq<Directive>)
    requires |ds| > 0
    ensures NoneInherited(inherited, ds) <==>
            NoneInherited(inherited, ds[..|ds| - 1]) && ds[|ds| - 1].name !in inherited
  {
    var init := ds[..|ds| - 1];
    assert forall i :: 0 <= i < |init| ==> ds[i] == init[i];
  }

  /** Inductive step of `GroupAsWrittenAgrees`: after directives with
      ordinary names, the reduce as written throws exactly on an inherited
      name. */
  lemma AddDirectiveAsWrittenStep(inherited: set<string>, init: seq<Directive>, d: Directive)
    requires NoneInherited(inherited, init)
    ensures AddDirectiveAsWritten(inherited, Group(init), d) ==
            if d.name in inherited then Err(PushNotAFunction(d.name)) else Ok(Group(init + [d]))
  {
    var ds := init + [d];
    assert ds[..|ds| - 1] == init;
    if d.name in inherited {
      GroupKeySet(init);
    }
  }

  /** A single directive named `toString` makes the reduce as written throw,
      while the intended grouping gives it a group of its own. */
  lemma ToStringDirectiveThrows()
    ensures GroupAsWritten(ObjectPrototypeKeys, [Directive("toString", None)]) == Err(PushNotAFunction("toString"))
    ensures Lookup(Group([Directive("toString", None)]), "toString") == Some([EmptyObject])
  {
    var ds := [Directive("toString", None)];
    assert ds[..0] == [];
    assert GroupAsWritten(ObjectPrototypeKeys, ds[..0]) == Ok([]);
    GroupLookup(ds, "toString");
    assert Names(ds)[0] == "toString";
    assert ArgsNamed(ds, "toString") == ArgsNamed(ds[..0], "toString") + [EmptyObject];
  }

  // ---------------------------------------------------------------------
  // The configuration hooks

  /** A value under a key of `extensions`: the normalised directives, or
      anything another plugin or the application stored there. */
  datatype Extension = DirectivesValue(directives: DirectiveSpec) | Other(value: Value)

  /** The part of a type, field, input-field or enum-value configuration the
      hooks look at: `giraphqlOptions.directives` (absent or `null` is
      `None`) and `extensions` (absent is `None`). `props` stands for every
      other own property, the remaining keys of `giraphqlOptions` included,
      which the hooks copy without looking at them. */
  datatype Config<P> = Config(props: P, directives: Option<DirectiveSpec>, extensions: Option<seq<(string, Extension)>>)

  /** `{ ...config.extensions }`: spreading an absent object gives `{}`. */
  function ExtensionsOf<P>(c: Config<P>): seq<(string, Extension)> {
    c.extensions.GetOr([])
  }

  /** What each hook promises: without directives the configuration comes
      back untouched; with directives the result is the configuration with
      only `extensions.directives` replaced by the normalised directives,
      every other extension kept under its key and in its position. */
  ghost predicate Annotates<P>(unordered: bool, c: Config<P>, r: Config<P>) {
    && (c.directives.None? ==> r == c)
    && (c.directives.Some? ==>
        && r.props == c.props
        && r.directives == c.directives
        && r.extensions.Some?
        && Lookup(r.extensions.value, "directives") == Some(DirectivesValue(Normalize(unordered, c.directives.value)))
        && (forall k :: k != "directives" ==> Lookup(r.extensions.value, k) == Lookup(ExtensionsOf(c), k))
        && ("directives" in Keys(ExtensionsOf(c)) ==> Keys(r.extensions.value) == Keys(ExtensionsOf(c)))
        && ("directives" !in Keys(ExtensionsOf(c)) ==> Keys(r.extensions.value) == Keys(ExtensionsOf(c)) + ["directives"]))
  }

  /** The body the four hooks share. */
  function WithDirectives<P>(unordered: bool, c: Config<P>): (r: Config<P>)
    ensures Annotates(unordered, c, r)
  {
    match c.directives
    case None => c
    case Some(d) =>
      PutKeys(ExtensionsOf(c), "directives", DirectivesValue(Normalize(unordered, d)));
      c.(extensions := Some(Put(ExtensionsOf(c), "directives", DirectivesValue(Normalize(unordered, d)))))
  }

  /** `onOutputFieldConfig`. */
  function OnOutputFieldConfig<P>(unordered: bool, fieldConfig: Config<P>): (r: Config<P>)
    ensures Annotates(unordered, fieldConfig, r)
  {
    WithDirectives(unordered, fieldConfig)
  }

  /** `onInputFieldConfig`. */
  function OnInputFieldConfig<P>(unordered: bool, fieldConfig: Config<P>): (r: Config<P>)
    ensures Annotates(unordered, fieldConfig, r)
  {
    WithDirectives(unordered, fieldConfig)
  }

  /** `onEnumValueConfig`. */
  function OnEnumValueConfig<P>(unordered: bool, valueConfig: Config<P>): (r: Config<P>)
    ensures Annotates(unordered, valueConfig, r)
  {
    WithDirectives(unordered, valueConfig)
  }

  /** `onTypeConfig`. */
  function OnTypeConfig<P>(unordered: bool, typeConfig: Config<P>): (r: Config<P>)
    ensures Annotates(unordered, typeConfig, r)
  {
    WithDirectives(unordered, typeConfig)
  }

  /** Running a hook twice gives the same configuration as running it once:
      the second run stores the same normalised directives again. */
  lemma WithDirectivesIdempotent<P>(unordered: bool, c: Config<P>)
    ensures WithDirectives(unordered, WithDirectives(unordered, c)) == WithDirectives(unordered, c)
  {
    if c.directives.Some? {
      var r := WithDirectives(unordered, c);
      var e := ExtensionsOf(r);
      PutSameValue(e, "directives", DirectivesValue(Normalize(unordered, c.directives.value)));
    }
  }
}
