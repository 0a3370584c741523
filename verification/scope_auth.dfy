/** Caching helpers of the scope-auth plugin: whether the result of checking
    a scope map may be cached (`canCache`), and the cache key of a response
    path (`cacheKey`). */
module ScopeAuth {
  import opened Wrappers
  import opened Js

  // ---------------------------------------------------------------------
  // canCache

  /** An auth scope map: `$granted`, the nested maps `$all` and `$any`
      (absent is `None`), and the application's own scope entries. */
  datatype ScopeMap = ScopeMap(
    granted: Option<Value>,
    all: Option<ScopeMap>,
    any: Option<ScopeMap>,
    scopes: seq<(string, Value)>)

  /** `if (map.$granted)`: `$granted` is present and truthy. */
  predicate IsGranted(m: ScopeMap) {
    Truthy(m.granted)
  }

  /** `canCache`. A nested map is always an object, so `map.$all ? … : true`
      recurses exactly when `$all` is present, and likewise for `$any`. */
  function CanCache(m: ScopeMap): (r: bool)
    ensures IsGranted(m) ==> !r
    ensures m.all.None? && m.any.None? ==> r == !IsGranted(m)
  {
    if IsGranted(m) then false
    else
      (match m.all case Some(a) => CanCache(a) case None => true) &&
      (match m.any case Some(a) => CanCache(a) case None => true)
  }

  /** A step from a scope map into one of its nested maps. */
  datatype Step = All | Any

  /** The nested map reached from `m` by following `path`, if every step
      leads to a present map. */
  function At(m: ScopeMap, path: seq<Step>): Option<ScopeMap>
    decreases |path|
  {
    if |path| == 0 then Some(m)
    else
      var next := if path[0] == All then m.all else m.any;
      match next
      case None => None
      case Some(n) => At(n, path[1..])
  }

  /** A scope map is cacheable exactly when no map reachable through `$all`
      and `$any` (itself included) has a truthy `$granted`. */
  lemma {:induction false} CanCacheIffNoneGranted(m: ScopeMap)
    ensures CanCache(m) <==> forall path :: At(m, path).Some? ==> !IsGranted(At(m, path).value)
  {
    if CanCache(m) {
      forall path | At(m, path).Some?
        ensures !IsGranted(At(m, path).value)
      {
        CacheableReachable(m, path);
      }
    } else if !IsGranted(m) {
      var step := if m.all.Some? && !CanCache(m.all.value) then All else Any;
      assert step == Any ==> m.any.Some? && !CanCache(m.any.value);
      var n := if step == All then m.all.value else m.any.value;
      assert (if step == All then m.all else m.any) == Some(n);
      assert !CanCache(n);
      CanCacheIffNoneGranted(n);
      var p :| At(n, p).Some? && IsGranted(At(n, p).value);
      var q := [step] + p;
      assert q[0] == step && q[1..] == p;
      assert At(m, q) == At(n, p);
      assert At(m, q).Some? && IsGranted(At(m, q).value);
      assert exists path :: At(m, path).Some? && IsGranted(At(m, path).value);
    } else {
      var here: seq<Step> := [];
      assert At(m, here) == Some(m);
      assert exists path :: At(m, path).Some? && IsGranted(At(m, path).value);
    }
  }

  /** Every map reachable from a cacheable map is itself cacheable. */
  lemma {:induction false} CacheableReachable(m: ScopeMap, path: seq<Step>)
    requires CanCache(m)
    requires At(m, path).Some?
    ensures CanCache(At(m, path).value)
    decreases |path|
  {
    if |path| > 0 {
      var n := if path[0] == All then m.all.value else m.any.value;
      CacheableReachable(n, path[1..]);
    }
  }

  // ---------------------------------------------------------------------
  // cacheKey

  /** A position in a JavaScript array: below 2^32. */
  type ListIndex = i: nat | i < 0x1_0000_0000

  /** A key of a response path: a field name or alias, or a list index. */
  datatype PathKey = Name(s: string) | Index(i: ListIndex)

  /** A response path, linked from the leaf towards the root through `prev`. */
  datatype Path = Path(prev: Option<Path>, key: PathKey)

  /** `String(key)`, which is also what the template `${key}` produces. */
  function KeyString(k: PathKey): string {
    match k
    case Name(s) => s
    case Index(i) => NatToString(i)
  }

  /** The number of segments of a path. */
  function Length(p: Path): nat {
    match p.prev
    case None => 1
    case Some(q) => Length(q) + 1
  }

  /** The key strings of a path, from the root to the leaf. */
  function Segments(p: Path): (ss: seq<string>)
    ensures |ss| == Length(p)
    ensures ss[|ss| - 1] == KeyString(p.key)
  {
    match p.prev
    case None => [KeyString(p.key)]
    case Some(q) => Segments(q) + [KeyString(p.key)]
  }

  /** The strings joined with `.` between consecutive elements. */
  function Join(ss: seq<string>): string
    requires |ss| > 0
  {
    if |ss| == 1 then ss[0] else ss[0] + "." + Join(ss[1..])
  }

  /** What `cacheKey` computes: `"*"` for the root (no path) and otherwise
      the keys from the root to the leaf, joined with `.`. */
  function CacheKeyOf(path: Option<Path>): string {
    match path
    case None => "*"
    case Some(p) => Join(Segments(p))
  }

  /** `cacheKey`: starts from the leaf's key and prepends `prev.key + "."`
      while walking towards the root. */
  method CacheKey(path: Option<Path>) returns (key: string)
    ensures key == CacheKeyOf(path)
  {
    if path.None? {
      return "*";
    }
    var p := path.value;
    key := KeyString(p.key);
    var current := p.prev;
    ghost var tail := [KeyString(p.key)];
    while current.Some?
      invariant |tail| > 0
      invariant key == Join(tail)
      invariant current.Some? ==> Segments(p) == Segments(current.value) + tail
      invariant current.None? ==> Segments(p) == tail
      decreases if current.Some? then Length(current.value) else 0
    {
      var c := current.value;
      key := KeyString(c.key) + "." + key;
      assert ([KeyString(c.key)] + tail)[1..] == tail;
      tail := [KeyString(c.key)] + tail;
      current := c.prev;
    }
  }

  /** Joining one more string at the end adds a `.` and that string. */
  lemma {:induction false} JoinSnoc(ss: seq<string>, s: string)
    requires |ss| > 0
    ensures Join(ss + [s]) == Join(ss) + "." + s
  {
    if |ss| > 1 {
      assert (ss + [s])[1..] == ss[1..] + [s];
      JoinSnoc(ss[1..], s);
    }
  }

  /** The key of a path with a `prev` is the key of `prev`, a `.` and the
      string form of the leaf key; a single-segment path has the string form
      of its key. */
  lemma CacheKeyStep(p: Path)
    ensures p.prev.None? ==> CacheKeyOf(Some(p)) == KeyString(p.key)
    ensures p.prev.Some? ==> CacheKeyOf(Some(p)) == CacheKeyOf(p.prev) + "." + KeyString(p.key)
  {
    if p.prev.Some? {
      JoinSnoc(Segments(p.prev.value), KeyString(p.key));
    }
  }

  /** The number of occurrences of `c` in `s`. */
  function Count(c: char, s: string): nat {
    if |s| == 0 then 0 else (if s[0] == c then 1 else 0) + Count(c, s[1..])
  }

  lemma {:induction false} CountAppend(c: char, a: string, b: string)
    ensures Count(c, a + b) == Count(c, a) + Count(c, b)
  {
    if |a| > 0 {
      assert (a + b)[1..] == a[1..] + b;
      CountAppend(c, a[1..], b);
    } else {
      assert a + b == b;
    }
  }

  lemma {:induction false} CountAbsent(c: char, s: string)
    requires c !in s
    ensures Count(c, s) == 0
  {
    if |s| > 0 {
      CountAbsent(c, s[1..]);
    }
  }

  /** When no key string contains `.`, the key of a path has exactly one
      `.` fewer than the path has segments. */
  lemma {:induction false} CacheKeyDots(p: Path)
    requires forall s :: s in Segments(p) ==> '.' !in s
    ensures Count('.', CacheKeyOf(Some(p))) == Length(p) - 1
  {
    JoinDots(Segments(p));
  }

  lemma {:induction false} JoinDots(ss: seq<string>)
    requires |ss| > 0
    requires forall s :: s in ss ==> '.' !in s
    ensures Count('.', Join(ss)) == |ss| - 1
  {
    CountAbsent('.', ss[0]);
    if |ss| > 1 {
      JoinDots(ss[1..]);
      CountAppend('.', ss[0] + ".", Join(ss[1..]));
      CountAppend('.', ss[0], ".");
    }
  }

  /** The segments of a path are recovered by splitting its key at `.` when
      no key string contains `.`. */
  lemma CacheKeySplits(p: Path)
    requires forall s :: s in Segments(p) ==> '.' !in s
    ensures Split(CacheKeyOf(Some(p))) == Segments(p)
  {
    SplitJoin(Segments(p));
  }

  /** Paths whose key strings differ, none containing `.`, have different
      cache keys. Key strings, not keys, are compared: the field name `0` and
      the list index 0 print alike, but a GraphQL name never starts with a
      digit, so a response path holds no such field name. */
  lemma CacheKeyInjective(p: Path, q: Path)
    requires forall s :: s in Segments(p) ==> '.' !in s
    requires forall s :: s in Segments(q) ==> '.' !in s
    requires Segments(p) != Segments(q)
    ensures CacheKeyOf(Some(p)) != CacheKeyOf(Some(q))
  {
    CacheKeySplits(p);
    CacheKeySplits(q);
  }

  /** The pieces of `s` between the `.` characters. */
  function Split(s: string): (r: seq<string>)
    ensures |r| > 0
  {
    if '.' !in s then [s]
    else
      var i := FirstDot(s);
      [s[..i]] + Split(s[i + 1..])
  }

  /** The position of the first `.` in `s`. */
  function FirstDot(s: string): (i: nat)
    requires '.' in s
    ensures i < |s| && s[i] == '.' && '.' !in s[..i]
  {
    if s[0] == '.' then 0
    else
      var j := FirstDot(s[1..]);
      assert s[..j + 1] == [s[0]] + s[1..][..j];
      j + 1
  }

  lemma {:induction false} SplitJoin(ss: seq<string>)
    requires |ss| > 0
    requires forall s :: s in ss ==> '.' !in s
    ensures Split(Join(ss)) == ss
  {
    if |ss| > 1 {
      var s := Join(ss);
      assert s == ss[0] + "." + Join(ss[1..]);
      assert s[|ss[0]|] == '.';
      assert '.' in s;
      assert s[..|ss[0]|] == ss[0];
      FirstDotAt(s, |ss[0]|);
      var i := |ss[0]|;
      assert s[i + 1..] == Join(ss[1..]);
      SplitJoin(ss[1..]);
      assert ss == [ss[0]] + ss[1..];
    }
  }

  /** The first `.` is at `k` when `s[k]` is a `.` and none comes before. */
  lemma {:induction false} FirstDotAt(s: string, k: nat)
    requires k < |s| && s[k] == '.' && '.' !in s[..k]
    ensures FirstDot(s) == k
  {
    if k > 0 {
      assert s[0] == s[..k][0];
      assert s[1..][..k - 1] == s[1..k];
      assert forall j :: 0 <= j < k - 1 ==> s[1..k][j] == s[..k][j + 1];
      FirstDotAt(s[1..], k - 1);
    }
  }
}
