/**
 * The declarative behaviour registry of webPresents: which `data-*`
 * attributes of a slide element install which behaviour, how an attribute's
 * text is coerced to a number, and how transition names are looked up.
 */
module Behaviours {
  import opened Util

  /** An attribute value after coercion: a number when the text is numeric, else the text. */
  datatype Value = Num(n: int) | Str(s: string)

  /** One attribute of a slide element, as `nodeName` and `nodeValue`. */
  datatype Attribute = Attribute(name: string, value: string)

  predicate IsDigit(c: char) { '0' <= c <= '9' }

  predicate AllDigits(s: string) { forall k :: 0 <= k < |s| ==> IsDigit(s[k]) }

  /**
   * The numeric texts of this model: an optional sign followed by one or more
   * decimal digits.
   */
  predicate IsDecimal(s: string)
  {
    if |s| > 0 && (s[0] == '-' || s[0] == '+') then |s| > 1 && AllDigits(s[1..])
    else |s| > 0 && AllDigits(s)
  }

  /** The value of a string of decimal digits, most significant first. */
  function DigitsValue(s: string): (v: nat)
    requires AllDigits(s)
  {
    if s == [] then 0
    else DigitsValue(s[..|s| - 1]) * 10 + (s[|s| - 1] as int - '0' as int)
  }

  /** `Number(text)` for a decimal text. */
  function DecimalValue(s: string): int
    requires IsDecimal(s)
  {
    if s[0] == '-' then 0 - DigitsValue(s[1..]) as int
    else if s[0] == '+' then DigitsValue(s[1..])
    else DigitsValue(s)
  }

  /** `dataValue !== '' && isFinite(dataValue) ? Number(dataValue) : dataValue`. */
  function Coerce(raw: string): (v: Value)
    ensures v.Num? <==> IsDecimal(raw)
    ensures v.Str? ==> v.s == raw
  {
    if raw != "" && IsDecimal(raw) then Num(DecimalValue(raw)) else Str(raw)
  }

  /** Decimal digits of a natural number, no leading zeros. */
  function Digits(n: nat): (s: string)
    ensures |s| > 0 && AllDigits(s)
    decreases n
  {
    (if n < 10 then "" else Digits(n / 10)) + [(('0' as int) + n % 10) as char]
  }

  /** The text of an integer attribute value, as a page author writes it. */
  function Decimal(n: int): string
  {
    if n < 0 then "-" + Digits(-n) else Digits(n)
  }

  lemma {:induction false} DigitsValueOf(n: nat)
    ensures DigitsValue(Digits(n)) == n
    decreases n
  {
    var s := Digits(n);
    var last := (('0' as int) + n % 10) as char;
    if n < 10 {
      assert s == [last];
      assert s[..|s| - 1] == [];
    } else {
      DigitsValueOf(n / 10);
      assert s[..|s| - 1] == Digits(n / 10);
    }
  }

  /** The text of an integer is decimal and denotes that integer. */
  lemma DecimalOf(n: int)
    ensures IsDecimal(Decimal(n)) && DecimalValue(Decimal(n)) == n
  {
    var d := Digits(if n < 0 then -n else n);
    DigitsValueOf(if n < 0 then -n else n);
    if n < 0 {
      assert Decimal(n)[1..] == d;
    } else {
      assert IsDigit(d[0]);
    }
  }

  /** Round trip: the text of an integer is coerced back to that number. */
  lemma CoerceDecimal(n: int)
    ensures Coerce(Decimal(n)) == Num(n)
  {
    DecimalOf(n);
  }

  /** Texts that are not numeric, the empty text included, are kept as text. */
  lemma CoerceText(raw: string)
    requires raw == "" || !IsDecimal(raw)
    ensures Coerce(raw) == Str(raw)
  {
  }

  /** The behaviours registered in `webPresents.behaviours`. */
  datatype Behaviour = Duration | TransitionB | Video | FullVideo | FadeElements

  /** The property name under which a behaviour is registered. */
  function NameOf(b: Behaviour): string
  {
    match b
    case Duration => "duration"
    case TransitionB => "transition"
    case Video => "video"
    case FullVideo => "fullvideo"
    case FadeElements => "fadeelements"
  }

  /**
   * `behaviours[name]`: the installer registered under an attribute suffix,
   * if any. A name finds a behaviour exactly when it is that behaviour's name.
   */
  function Registered(name: string): (r: Option<Behaviour>)
    ensures r.Some? ==> NameOf(r.value) == name
    ensures forall b :: NameOf(b) == name ==> r == Some(b)
  {
    if name == "duration" then Some(Duration)
    else if name == "transition" then Some(TransitionB)
    else if name == "video" then Some(Video)
    else if name == "fullvideo" then Some(FullVideo)
    else if name == "fadeelements" then Some(FadeElements)
    else None
  }

  /** One installer call: `behaviours[b](slide, value)`. */
  datatype Install = Install(behaviour: Behaviour, value: Value)

  const DataPrefix: string := "data-"

  /** The installer call one attribute causes: none, or exactly one. */
  function InstallOf(a: Attribute): (r: seq<Install>)
    ensures |r| <= 1
  {
    if |a.name| >= 5 && a.name[..5] == DataPrefix then
      match Registered(a.name[5..])
      case Some(b) => [Install(b, Coerce(a.value))]
      case None => []
    else []
  }

  /**
   * The installer calls of applySlideBehaviours, in the order of its
   * `while (i--)` loop: the last attribute first.
   */
  function Installs(attrs: seq<Attribute>): (r: seq<Install>)
    ensures |r| <= |attrs|
  {
    if attrs == [] then [] else Installs(attrs[1..]) + InstallOf(attrs[0])
  }

  /** Attributes of two lists: the second list's calls come first. */
  lemma {:induction false} InstallsAppend(a: seq<Attribute>, b: seq<Attribute>)
    ensures Installs(a + b) == Installs(b) + Installs(a)
  {
    if a == [] {
      assert a + b == b;
    } else {
      assert (a + b)[1..] == a[1..] + b;
      InstallsAppend(a[1..], b);
    }
  }

  /**
   * Each installer call comes from one attribute whose name is `data-` plus a
   * registered name, and each such attribute gives one call; all other
   * attributes are ignored.
   */
  lemma {:induction false} InstallsMember(attrs: seq<Attribute>, x: Install)
    ensures x in Installs(attrs) <==> exists j :: 0 <= j < |attrs| && InstallOf(attrs[j]) == [x]
  {
    if attrs != [] {
      InstallsMember(attrs[1..], x);
      if x in Installs(attrs[1..]) {
        var j :| 0 <= j < |attrs[1..]| && InstallOf(attrs[1..][j]) == [x];
        assert InstallOf(attrs[j + 1]) == [x];
      }
      if j :| 0 <= j < |attrs| && InstallOf(attrs[j]) == [x] {
        if j > 0 {
          assert InstallOf(attrs[1..][j - 1]) == [x];
        }
      }
    }
  }

  /** The transitions of `webPresents.transitions`, and transition functions given by a caller. */
  datatype Transition = FadeToBlack | SlideFade | Custom(id: nat)

  /** `opts.transition`: a transition name or a function. */
  datatype TransitionRef = Name(name: string) | Func(id: nat)

  /** `transitions[name]`; an unknown name (the default '' included) gives no transition. */
  function LookupTransition(name: string): (t: Option<Transition>)
    ensures t.Some? <==> name in {"fadeToBlack", "slideFade"}
    ensures name == "fadeToBlack" ==> t == Some(FadeToBlack)
    ensures name == "slideFade" ==> t == Some(SlideFade)
  {
    if name == "fadeToBlack" then Some(FadeToBlack)
    else if name == "slideFade" then Some(SlideFade)
    else None
  }

  /** `Slide.transition(func)`: a string is looked up, a function is kept. */
  function ResolveRef(r: TransitionRef): (t: Option<Transition>)
    ensures t.None? <==> r.Name? && r.name !in {"fadeToBlack", "slideFade"}
    ensures t.Some? && t.value.Custom? <==> r.Func?
    ensures r.Func? ==> t.value.id == r.id
    ensures r == Name("fadeToBlack") ==> t == Some(FadeToBlack)
    ensures r == Name("slideFade") ==> t == Some(SlideFade)
  {
    match r
    case Name(n) => LookupTransition(n)
    case Func(id) => Some(Custom(id))
  }

  /**
   * The transition a `data-transition` value gives: a text is handed to
   * `Slide.transition` as a name; a numeric value gives none.
   */
  function TransitionOfValue(v: Value): (t: Option<Transition>)
    ensures v.Str? ==> t == ResolveRef(Name(v.s))
    ensures v.Num? ==> t.None?
    ensures t.None? || !t.value.Custom?
  {
    match v
    case Str(s) => LookupTransition(s)
    case Num(_) => None
  }

  /** The slide's transition after running the installer calls in order, starting from `init`. */
  function TransitionAfter(init: Option<Transition>, installs: seq<Install>): Option<Transition>
  {
    if installs == [] then init
    else
      var last := installs[|installs| - 1];
      if last.behaviour == TransitionB then TransitionOfValue(last.value)
      else TransitionAfter(init, installs[..|installs| - 1])
  }

  /**
   * A `data-transition` attribute overrides the default transition: the
   * result then does not depend on the starting value; without one the
   * starting value is kept.
   */
  lemma {:induction false} TransitionOverride(a: Option<Transition>, b: Option<Transition>, installs: seq<Install>)
    ensures (exists j :: 0 <= j < |installs| && installs[j].behaviour == TransitionB)
              ==> TransitionAfter(a, installs) == TransitionAfter(b, installs)
    ensures (forall j :: 0 <= j < |installs| ==> installs[j].behaviour != TransitionB)
              ==> TransitionAfter(a, installs) == a
  {
    if installs != [] {
      var init := installs[..|installs| - 1];
      TransitionOverride(a, b, init);
      if installs[|installs| - 1].behaviour != TransitionB {
        if j :| 0 <= j < |installs| && installs[j].behaviour == TransitionB {
          assert init[j].behaviour == TransitionB;
        }
        assert forall j :: 0 <= j < |init| ==> init[j] == installs[j];
      }
    }
  }

  /** Is the behaviour one whose effects live outside the core (media and CSS)? */
  predicate IsForeign(b: Behaviour) { b == Video || b == FullVideo || b == FadeElements }

  /** The installer calls of the video, fullvideo and fadeelements behaviours, in order. */
  function ForeignInstalls(installs: seq<Install>): (r: seq<Install>)
    ensures forall x :: x in r <==> x in installs && IsForeign(x.behaviour)
  {
    if installs == [] then []
    else
      var last := installs[|installs| - 1];
      ForeignInstalls(installs[..|installs| - 1]) + (if IsForeign(last.behaviour) then [last] else [])
  }

  /** The foreign calls of two runs of installers are those of the first run, then those of the second. */
  lemma {:induction false} ForeignInstallsAppend(a: seq<Install>, b: seq<Install>)
    ensures ForeignInstalls(a + b) == ForeignInstalls(a) + ForeignInstalls(b)
    decreases |b|
  {
    if b == [] {
      assert a + b == a;
    } else {
      var init := b[..|b| - 1];
      assert (a + b)[..|a + b| - 1] == a + init;
      ForeignInstallsAppend(a, init);
    }
  }
}
