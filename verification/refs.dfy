/** `BaseTypeRef`: the handle every type declaration returns, a kind from a
    closed set of six and a type name, printed as `<Kind>Ref<<name>>`. */
module Refs {
  import opened Wrappers

  /** The six kinds a type reference can have. */
  datatype TypeKind = Enum | InputObject | Interface | Object | Scalar | Union

  /** The kind as the string literal the source uses. */
  function KindName(k: TypeKind): string {
    match k
    case Enum => "Enum"
    case InputObject => "InputObject"
    case Interface => "Interface"
    case Object => "Object"
    case Scalar => "Scalar"
    case Union => "Union"
  }

  /** The kind a string names, if it is one of the six literals. */
  function KindFromName(s: string): (k: Option<TypeKind>)
    ensures k.Some? ==> KindName(k.value) == s
    ensures k.None? ==> forall t: TypeKind :: KindName(t) != s
  {
    if s == "Enum" then Some(Enum)
    else if s == "InputObject" then Some(InputObject)
    else if s == "Interface" then Some(Interface)
    else if s == "Object" then Some(Object)
    else if s == "Scalar" then Some(Scalar)
    else if s == "Union" then Some(Union)
    else None
  }

  /** A type reference: the constructor stores `kind` and `name` as given. */
  datatype BaseTypeRef = BaseTypeRef(kind: TypeKind, name: string)

  /** `toString()`: the kind, then `Ref<`, the name verbatim, and `>`. */
  function ToString(r: BaseTypeRef): (s: string)
    ensures |s| == |KindName(r.kind)| + |r.name| + 5
    ensures s[..|KindName(r.kind)|] == KindName(r.kind)
    ensures s[|KindName(r.kind)|..|KindName(r.kind)| + 4] == "Ref<"
    ensures s[|KindName(r.kind)| + 4..|s| - 1] == r.name
    ensures s[|s| - 1] == '>'
  {
    KindName(r.kind) + "Ref<" + r.name + ">"
  }

  /** All kinds, in the order the source lists them. */
  const Kinds: seq<TypeKind> := [Enum, InputObject, Interface, Object, Scalar, Union]

  /** Reads back a printed reference: the first kind whose `<Kind>Ref<`
      prefixes `s`, provided `s` ends with `>`. */
  function Parse(s: string): Option<BaseTypeRef> {
    ParseWith(s, Kinds)
  }

  function ParseWith(s: string, ks: seq<TypeKind>): Option<BaseTypeRef> {
    if |ks| == 0 then None
    else
      var prefix := KindName(ks[0]) + "Ref<";
      if prefix <= s && |s| > |prefix| && s[|s| - 1] == '>' then
        Some(BaseTypeRef(ks[0], s[|prefix|..|s| - 1]))
      else ParseWith(s, ks[1..])
  }

  /** Printing and reading back gives the reference itself. */
  lemma ParseToString(r: BaseTypeRef)
    ensures Parse(ToString(r)) == Some(r)
  {
    var s := ToString(r);
    var i := match r.kind
      case Enum => 0 case InputObject => 1 case Interface => 2
      case Object => 3 case Scalar => 4 case Union => 5;
    assert Kinds[i] == r.kind;
    forall j | 0 <= j < i
      ensures !(KindName(Kinds[j]) + "Ref<" <= s)
    {
      var p := KindName(Kinds[j]) + "Ref<";
      var at := if r.kind == Interface && Kinds[j] == InputObject then 2 else 0;
      assert p[at] != s[at];
    }
    ParseWithFrom(s, Kinds, i, r.name);
  }

  /** When no kind before position `i` prefixes `s`, parsing proceeds to the
      kind at `i`. */
  lemma {:induction false} ParseWithFrom(s: string, ks: seq<TypeKind>, i: nat, name: string)
    requires i < |ks|
    requires forall j :: 0 <= j < i ==> !(KindName(ks[j]) + "Ref<" <= s)
    requires s == ToString(BaseTypeRef(ks[i], name))
    ensures ParseWith(s, ks) == Some(BaseTypeRef(ks[i], name))
  {
    if i > 0 {
      ParseWithFrom(s, ks[1..], i - 1, name);
    } else {
      var prefix := KindName(ks[0]) + "Ref<";
      assert s[..|prefix|] == prefix;
    }
  }

  /** Distinct references print differently, so the printed form can serve
      as an identity key. */
  lemma ToStringInjective(a: BaseTypeRef, b: BaseTypeRef)
    ensures ToString(a) == ToString(b) ==> a == b
  {
    ParseToString(a);
    ParseToString(b);
  }
}
