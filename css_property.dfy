/**
 * Vendor-prefix lookup for CSS property names (getCssPropertyName), which is
 * written identically in webPresents.js and uSlides.js.
 *
 * The browser's `style` object is abstracted as the set of camelCase property
 * names it supports. Character case mapping is modelled for ASCII letters only.
 */
module CssProperty {

  predicate IsUpper(c: char) { 'A' <= c <= 'Z' }
  predicate IsLower(c: char) { 'a' <= c <= 'z' }
  /** The class [a-z] under the regular-expression flag `i`: ASCII letters of either case. */
  predicate IsLetter(c: char) { IsUpper(c) || IsLower(c) }

  function ToUpper(c: char): (u: char)
    ensures IsLower(c) ==> IsUpper(u) && u as int == c as int - 32
    ensures !IsLower(c) ==> u == c
  {
    if IsLower(c) then (c as int - 32) as char else c
  }

  function ToLower(c: char): (l: char)
    ensures IsUpper(c) ==> IsLower(l) && l as int == c as int + 32
    ensures !IsUpper(c) ==> l == c
  {
    if IsUpper(c) then (c as int + 32) as char else c
  }

  /** `String.prototype.toLowerCase`, ASCII only. */
  function Lower(s: string): (r: string)
    ensures |r| == |s|
    ensures forall k :: 0 <= k < |s| ==> r[k] == ToLower(s[k])
  {
    if s == [] then [] else [ToLower(s[0])] + Lower(s[1..])
  }

  /**
   * `replace(/-([a-z])/ig, ...)`: scanning left to right, every `-` that is
   * immediately followed by a letter is dropped and the letter upper-cased.
   */
  function CamelCase(s: string): (r: string)
    ensures |r| <= |s|
  {
    if |s| >= 2 && s[0] == '-' && IsLetter(s[1]) then [ToUpper(s[1])] + CamelCase(s[2..])
    else if s == [] then []
    else [s[0]] + CamelCase(s[1..])
  }

  /** `slice(0,1).toUpperCase() + slice(1)`. */
  function UpperFirst(s: string): (r: string)
    ensures |r| == |s|
    ensures Lower(r) == Lower(s)
    ensures forall k :: 1 <= k < |s| ==> r[k] == s[k]
    ensures s != [] && IsLower(s[0]) ==> IsUpper(r[0])
    ensures s != [] && !IsLower(s[0]) ==> r[0] == s[0]
  {
    if s == [] then [] else [ToUpper(s[0])] + s[1..]
  }

  /** `replace(/([A-Z])/g, '-$1')`: a hyphen is put in front of every upper-case letter. */
  function Hyphenate(s: string): (r: string)
    ensures |r| >= |s|
  {
    if s == [] then []
    else if IsUpper(s[0]) then ['-', s[0]] + Hyphenate(s[1..])
    else [s[0]] + Hyphenate(s[1..])
  }

  /** A name without hyphens is its own camelCase form. */
  lemma {:induction false} CamelCaseNoHyphen(s: string)
    requires '-' !in s
    ensures CamelCase(s) == s
  {
    if s != [] {
      assert s[0] != '-';
      assert '-' !in s[1..];
      CamelCaseNoHyphen(s[1..]);
    }
  }

  /** In a hyphenated name every upper-case letter comes right after a hyphen. */
  lemma {:induction false} HyphenateMarks(s: string)
    ensures forall k :: 0 <= k < |Hyphenate(s)| && IsUpper(Hyphenate(s)[k]) ==> 0 < k && Hyphenate(s)[k - 1] == '-'
  {
    if s != [] {
      HyphenateMarks(s[1..]);
      var t := Hyphenate(s[1..]);
      var r := Hyphenate(s);
      forall k | 0 <= k < |r| && IsUpper(r[k])
        ensures 0 < k && r[k - 1] == '-'
      {
        var d := if IsUpper(s[0]) then 2 else 1;
        assert r == (if IsUpper(s[0]) then ['-', s[0]] else [s[0]]) + t;
        if k >= d {
          assert r[k] == t[k - d];
          assert k - d > 0 && t[k - d - 1] == '-';
          assert r[k - 1] == t[k - d - 1];
        } else {
          assert IsUpper(s[0]) && k == 1;
        }
      }
    }
  }

  /** The vendor prefixes, in array order; the search runs from the last to the first. */
  const Prefixes: seq<string> := ["Webkit", "O", "Ie", "Moz"]

  /** The property name returned for a supported prefixed form, e.g. `-moz-border-radius`. */
  function PrefixedName(prefix: string, upperCamel: string): string
  {
    Lower(Hyphenate(prefix + upperCamel))
  }

  /** The `while (i--)` search over Prefixes[0..i], highest index first. */
  function Search(style: set<string>, upperCamel: string, i: nat): (r: string)
    requires i <= |Prefixes|
  {
    if i == 0 then ""
    else if Prefixes[i - 1] + upperCamel in style then PrefixedName(Prefixes[i - 1], upperCamel)
    else Search(style, upperCamel, i - 1)
  }

  /** What getCssPropertyName computes on a cache miss. */
  function Resolve(style: set<string>, p: string): (r: string)
    ensures CamelCase(p) in style ==> r == p
  {
    var camel := CamelCase(p);
    if camel in style then p else Search(style, UpperFirst(camel), |Prefixes|)
  }

  /** The search returns the prefixed name of the highest supported index below i, or ''. */
  lemma {:induction false} SearchSpec(style: set<string>, u: string, i: nat)
    requires i <= |Prefixes|
    ensures var r := Search(style, u, i);
      || (exists k :: 0 <= k < i && Prefixes[k] + u in style
            && (forall j :: k < j < i ==> Prefixes[j] + u !in style)
            && r == PrefixedName(Prefixes[k], u))
      || ((forall j :: 0 <= j < i ==> Prefixes[j] + u !in style) && r == "")
  {
    if i > 0 && Prefixes[i - 1] + u !in style {
      SearchSpec(style, u, i - 1);
    }
  }

  /**
   * getCssPropertyName returns exactly one of: the name itself when its
   * camelCase form is supported; the first supported prefixed form, trying
   * Moz, Ie, O, Webkit in that order; or the empty string.
   */
  lemma ResolveCases(style: set<string>, p: string)
    ensures var camel := CamelCase(p);
      var u := UpperFirst(camel);
      var r := Resolve(style, p);
      || (camel in style && r == p)
      || (camel !in style
            && (exists k :: 0 <= k < 4 && Prefixes[k] + u in style
                  && (forall j :: k < j < 4 ==> Prefixes[j] + u !in style)
                  && r == PrefixedName(Prefixes[k], u)))
      || (camel !in style && (forall j :: 0 <= j < 4 ==> Prefixes[j] + u !in style) && r == "")
  {
    SearchSpec(style, UpperFirst(CamelCase(p)), |Prefixes|);
  }

  /** Moz is tried first: when its form is supported (and the bare name is not) it wins. */
  lemma MozFirst(style: set<string>, p: string)
    requires CamelCase(p) !in style
    requires "Moz" + UpperFirst(CamelCase(p)) in style
    ensures Resolve(style, p) == PrefixedName("Moz", UpperFirst(CamelCase(p)))
  {
  }

  /** Lower-case letters, each hyphen immediately followed by a lower-case letter. */
  predicate KebabTail(s: string)
  {
    || s == []
    || (IsLower(s[0]) && KebabTail(s[1..]))
    || (|s| >= 2 && s[0] == '-' && IsLower(s[1]) && KebabTail(s[2..]))
  }

  /** A CSS-style name: starts with a lower-case letter, single interior hyphens, no trailing hyphen. */
  predicate KebabName(s: string)
  {
    s != [] && IsLower(s[0]) && KebabTail(s)
  }

  lemma {:induction false} LowerAppend(a: string, b: string)
    ensures Lower(a + b) == Lower(a) + Lower(b)
  {
  }

  lemma {:induction false} HyphenateAppend(a: string, b: string)
    ensures Hyphenate(a + b) == Hyphenate(a) + Hyphenate(b)
  {
    if a != [] {
      assert (a + b)[1..] == a[1..] + b;
      HyphenateAppend(a[1..], b);
    } else {
      assert a + b == b;
    }
  }

  /** Undoing camelCase: hyphenating and lower-casing a camelCased kebab tail gives it back. */
  lemma {:induction false} CamelCaseInverse(s: string)
    requires KebabTail(s)
    ensures Lower(Hyphenate(CamelCase(s))) == s
  {
    if s == [] {
    } else if s[0] == '-' {
      CamelCaseInverse(s[2..]);
      var c := ToUpper(s[1]);
      assert CamelCase(s) == [c] + CamelCase(s[2..]);
      HyphenateAppend([c], CamelCase(s[2..]));
      assert Hyphenate([c]) == ['-', c];
      LowerAppend(['-', c], Hyphenate(CamelCase(s[2..])));
      assert Lower(['-', c]) == ['-', s[1]];
      assert s == ['-', s[1]] + s[2..];
    } else {
      CamelCaseInverse(s[1..]);
      assert CamelCase(s) == [s[0]] + CamelCase(s[1..]);
      HyphenateAppend([s[0]], CamelCase(s[1..]));
      LowerAppend([s[0]], Hyphenate(CamelCase(s[1..])));
      assert s == [s[0]] + s[1..];
    }
  }

  /** A vendor prefix: an upper-case letter followed by lower-case letters. */
  ghost predicate PrefixShape(prefix: string)
  {
    prefix != [] && IsUpper(prefix[0]) && forall k :: 1 <= k < |prefix| ==> IsLower(prefix[k])
  }

  lemma {:induction false} HyphenateLowerTail(s: string)
    requires forall k :: 0 <= k < |s| ==> IsLower(s[k])
    ensures Hyphenate(s) == s
  {
    if s != [] {
      HyphenateLowerTail(s[1..]);
    }
  }

  lemma HyphenatePrefix(prefix: string)
    requires PrefixShape(prefix)
    ensures Hyphenate(prefix) == ['-'] + prefix
  {
    HyphenateLowerTail(prefix[1..]);
    assert prefix == [prefix[0]] + prefix[1..];
  }

  lemma HyphenateUpperFirst(p: string)
    requires KebabName(p)
    ensures Hyphenate(UpperFirst(CamelCase(p))) == ['-', ToUpper(p[0])] + Hyphenate(CamelCase(p[1..]))
  {
    var cc := CamelCase(p[1..]);
    assert UpperFirst(CamelCase(p)) == [ToUpper(p[0])] + cc;
    HyphenateAppend([ToUpper(p[0])], cc);
  }

  lemma LowerTail(p: string)
    requires KebabName(p)
    ensures Lower(['-', ToUpper(p[0])] + Hyphenate(CamelCase(p[1..]))) == ['-'] + p
  {
    CamelCaseInverse(p[1..]);
    LowerAppend(['-', ToUpper(p[0])], Hyphenate(CamelCase(p[1..])));
    assert Lower(['-', ToUpper(p[0])]) == ['-', p[0]];
    assert p == [p[0]] + p[1..];
  }

  /** Hyphenating a prefixed upper-camel name puts a hyphen before the prefix and before the name. */
  lemma HyphenatePrefixed(prefix: string, p: string)
    requires PrefixShape(prefix) && KebabName(p)
    ensures Hyphenate(prefix + UpperFirst(CamelCase(p)))
      == (['-'] + prefix) + (['-', ToUpper(p[0])] + Hyphenate(CamelCase(p[1..])))
  {
    HyphenateAppend(prefix, UpperFirst(CamelCase(p)));
    HyphenatePrefix(prefix);
    HyphenateUpperFirst(p);
  }

  lemma LowerHead(prefix: string)
    ensures Lower(['-'] + prefix) == "-" + Lower(prefix)
  {
    LowerAppend(['-'], prefix);
  }

  /**
   * For a CSS-style name p, the prefixed result is `'-' + lower(prefix) + '-' + p`,
   * e.g. Moz and border-radius give -moz-border-radius.
   */
  lemma PrefixedNameShape(prefix: string, p: string)
    requires PrefixShape(prefix) && KebabName(p)
    ensures PrefixedName(prefix, UpperFirst(CamelCase(p))) == "-" + Lower(prefix) + "-" + p
  {
    var head := ['-'] + prefix;
    var tail := ['-', ToUpper(p[0])] + Hyphenate(CamelCase(p[1..]));
    HyphenatePrefixed(prefix, p);
    LowerAppend(head, tail);
    LowerHead(prefix);
    LowerTail(p);
    assert "-" + Lower(prefix) + "-" + p == ("-" + Lower(prefix)) + (['-'] + p);
  }

  /**
   * The memoising resolver: the closure's `cache` dictionary over a fixed
   * `style` object.
   */
  class Resolver {
    const style: set<string>
    var cache: map<string, string>

    /** Every cached entry is what a fresh lookup would compute. */
    ghost predicate Valid()
      reads this
    {
      forall k :: k in cache ==> cache[k] == Resolve(style, k)
    }

    constructor (style: set<string>)
      ensures Valid() && this.style == style && cache == map[]
    {
      this.style := style;
      cache := map[];
    }

    /**
     * getCssPropertyName: a cached name is returned without consulting
     * `style`; otherwise the name is resolved and stored. The cache only grows
     * and every call gives the same answer as a fresh lookup.
     */
    method Get(p: string) returns (r: string)
      requires Valid()
      modifies this
      ensures Valid()
      ensures r == Resolve(style, p)
      ensures p in old(cache) ==> r == old(cache)[p]
      ensures cache == old(cache)[p := r]
    {
      if p in cache {
        r := cache[p];
        return;
      }
      var camel := CamelCase(p);
      r := "";
      if camel in style {
        r := p;
      } else {
        var upper := UpperFirst(camel);
        var i := |Prefixes|;
        while i > 0
          invariant 0 <= i <= |Prefixes|
          invariant r == ""
          invariant Search(style, upper, |Prefixes|) == Search(style, upper, i)
          decreases i
        {
          i := i - 1;
          if Prefixes[i] + upper in style {
            r := PrefixedName(Prefixes[i], upper);
            break;
          }
        }
      }
      cache := cache[p := r];
    }
  }

  /** Calling the resolver twice with the same name gives the same answer, and the second call leaves the cache as it was. */
  method GetTwice(res: Resolver, p: string) returns (a: string, b: string)
    requires res.Valid()
    modifies res
    ensures a == b == Resolve(res.style, p)
    ensures res.cache == old(res.cache)[p := a]
  {
    a := res.Get(p);
    b := res.Get(p);
  }
}
