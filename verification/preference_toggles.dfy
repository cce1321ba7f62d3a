/** The header buttons that step through the display preferences: language, font size, theme. */
module PreferenceToggles {
  import opened Wrappers

  const Languages: seq<string> := ["en", "zh", "ms"]
  const FontSizes: seq<string> := ["small", "medium", "large"]

  ghost predicate Distinct<T>(xs: seq<T>)
  {
    forall i, j :: 0 <= i < j < |xs| ==> xs[i] != xs[j]
  }

  /** `Array.prototype.indexOf`: the first position of `x`, or -1. */
  function IndexOf<T(==)>(xs: seq<T>, x: T): (i: int)
    ensures -1 <= i < |xs|
    ensures i == -1 <==> x !in xs
    ensures 0 <= i ==> xs[i] == x && forall k :: 0 <= k < i ==> xs[k] != x
  {
    if |xs| == 0 then -1
    else if xs[0] == x then 0
    else
      var j := IndexOf(xs[1..], x);
      assert xs == [xs[0]] + xs[1..];
      if j == -1 then -1 else j + 1
  }

  /** In a list without repeats an element's position is found again. */
  lemma IndexOfDistinct<T>(xs: seq<T>, i: nat)
    requires Distinct(xs) && i < |xs|
    ensures IndexOf(xs, xs[i]) == i
  {
  }

  /** `xs[(xs.indexOf(x) + 1) % xs.length]`: the entry after `x`, wrapping round at the end;
      a value not in the list (indexOf gives -1) moves to the first entry. */
  function CycleNext<T(==)>(xs: seq<T>, x: T): (r: T)
    requires |xs| > 0
    ensures r in xs
    ensures x !in xs ==> r == xs[0]
  {
    xs[(IndexOf(xs, x) + 1) % |xs|]
  }

  /** The step itself: entry `i` moves to entry `i + 1`, and the last entry to the first. */
  lemma {:induction false} CycleStep<T>(xs: seq<T>, i: nat)
    requires Distinct(xs) && i < |xs|
    ensures CycleNext(xs, xs[i]) == if i + 1 < |xs| then xs[i + 1] else xs[0]
  {
    IndexOfDistinct(xs, i);
    Wrap(i + 1, |xs|);
  }

  lemma {:induction false} Wrap(j: nat, m: nat)
    requires 0 < m && j <= m
    ensures j % m == if j == m then 0 else j
  {
  }

  /** `n` applications of `f`. */
  function Iterate<T>(f: T -> T, x: T, n: nat): T
  {
    if n == 0 then x else f(Iterate(f, x, n - 1))
  }

  lemma {:induction false} IterateAdd<T>(f: T -> T, x: T, a: nat, b: nat)
    ensures Iterate(f, x, a + b) == Iterate(f, Iterate(f, x, a), b)
    decreases b
  {
    if b > 0 {
      IterateAdd(f, x, a, b - 1);
      assert a + b - 1 == a + (b - 1);
    }
  }

  /** One press of the cycling button over `xs`. */
  function Press<T(==)>(xs: seq<T>): T -> T
    requires |xs| > 0
  {
    x => CycleNext(xs, x)
  }

  /** `n` presses of a cycling button. */
  function Presses<T(==)>(xs: seq<T>, x: T, n: nat): T
    requires |xs| > 0
  {
    Iterate(Press(xs), x, n)
  }

  /** `f` moves every entry of `xs` to the next one, and the last back to the first. */
  ghost predicate Rotates<T>(f: T -> T, xs: seq<T>)
    requires |xs| > 0
  {
    && (forall k :: 0 <= k < |xs| - 1 ==> f(xs[k]) == xs[k + 1])
    && f(xs[|xs| - 1]) == xs[0]
  }

  lemma PressRotates<T>(xs: seq<T>)
    requires Distinct(xs) && |xs| > 0
    ensures Rotates(Press(xs), xs)
  {
    forall k | 0 <= k < |xs| - 1
      ensures Press(xs)(xs[k]) == xs[k + 1]
    {
      CycleStep(xs, k);
    }
    CycleStep(xs, |xs| - 1);
  }

  /** Without reaching the end, `k` steps of a rotation move `k` entries forward. */
  lemma {:induction false} RotateForward<T>(f: T -> T, xs: seq<T>, i: nat, k: nat)
    requires |xs| > 0 && Rotates(f, xs) && i + k < |xs|
    ensures Iterate(f, xs[i], k) == xs[i + k]
    decreases k
  {
    if k > 0 {
      RotateForward(f, xs, i, k - 1);
    }
  }

  /** One step per entry brings a rotation back to where it started. */
  lemma {:induction false} RotateFull<T>(f: T -> T, xs: seq<T>, i: nat)
    requires |xs| > 0 && Rotates(f, xs) && i < |xs|
    ensures Iterate(f, xs[i], |xs|) == xs[i]
  {
    var wrapAt := |xs| - i;
    var last := |xs| - 1;
    RotateForward(f, xs, i, last - i);
    assert Iterate(f, xs[i], wrapAt) == f(Iterate(f, xs[i], last - i));
    RotateForward(f, xs, 0, i);
    IterateAdd(f, xs[i], wrapAt, i);
  }

  /** Pressing a cycling button once per entry brings back the starting value. */
  lemma FullCycle<T>(xs: seq<T>, i: nat)
    requires Distinct(xs) && i < |xs|
    ensures Presses(xs, xs[i], |xs|) == xs[i]
  {
    PressRotates(xs);
    RotateFull(Press(xs), xs, i);
  }

  /** The language button: EN, ZH, MS and round again. */
  function CycleLanguage(language: string): (r: string)
    ensures r in Languages
  {
    CycleNext(Languages, language)
  }

  /** The font-size button: small, medium, large and round again. */
  function CycleFontSize(size: string): (r: string)
    ensures r in FontSizes
  {
    CycleNext(FontSizes, size)
  }

  lemma LanguageOrder()
    ensures CycleLanguage("en") == "zh" && CycleLanguage("zh") == "ms" && CycleLanguage("ms") == "en"
  {
    assert Distinct(Languages);
    CycleStep(Languages, 0);
    CycleStep(Languages, 1);
    CycleStep(Languages, 2);
  }

  /** A stored language outside the list (indexOf gives -1) moves to English. */
  lemma UnknownLanguageMovesToFirst(language: string)
    requires language !in Languages
    ensures CycleLanguage(language) == "en"
  {
  }

  /** Three presses of the language button bring back the language shown. */
  lemma LanguageFullCycle(language: string)
    requires language in Languages
    ensures Presses(Languages, language, 3) == language
  {
    assert Distinct(Languages);
    var i :| 0 <= i < 3 && Languages[i] == language;
    FullCycle(Languages, i);
  }

  lemma FontSizeOrder()
    ensures CycleFontSize("small") == "medium" && CycleFontSize("medium") == "large" && CycleFontSize("large") == "small"
  {
    assert Distinct(FontSizes);
    CycleStep(FontSizes, 0);
    CycleStep(FontSizes, 1);
    CycleStep(FontSizes, 2);
  }

  /** A stored size outside the list moves to small. */
  lemma UnknownFontSizeMovesToFirst(size: string)
    requires size !in FontSizes
    ensures CycleFontSize(size) == "small"
  {
  }

  /** Three presses of the font-size button bring back the size shown. */
  lemma FontSizeFullCycle(size: string)
    requires size in FontSizes
    ensures Presses(FontSizes, size, 3) == size
  {
    assert Distinct(FontSizes);
    var i :| 0 <= i < 3 && FontSizes[i] == size;
    FullCycle(FontSizes, i);
  }

  /** The theme button: light goes to dark, anything else to light. */
  function ToggleTheme(theme: string): (r: string)
    ensures r == "light" || r == "dark"
    ensures r != theme
    ensures theme == "light" ==> r == "dark"
    ensures theme != "light" ==> r == "light"
  {
    if theme == "light" then "dark" else "light"
  }

  /** Two presses of the theme button restore exactly the two known themes. */
  lemma ToggleThemeInvolution(theme: string)
    ensures ToggleTheme(ToggleTheme(theme)) == theme <==> theme == "light" || theme == "dark"
  {
  }

  /** What reading `obj[key]` gives for an object literal: one of its own members, a member
      it inherits from `Object.prototype`, or `undefined`. */
  datatype Lookup = Own(value: string) | Inherited(member: string) | Undefined

  /** The property names of `Object.prototype`, which every object literal inherits. */
  const ObjectPrototypeMembers: set<string> := {
    "constructor", "hasOwnProperty", "isPrototypeOf", "propertyIsEnumerable", "toString",
    "toLocaleString", "valueOf", "__proto__", "__defineGetter__", "__defineSetter__",
    "__lookupGetter__", "__lookupSetter__"}

  /** `obj[key]` for an object literal with the members `own`: own members shadow inherited ones. */
  function LookUp(own: map<string, string>, key: string): (r: Lookup)
    ensures r.Own? <==> key in own
    ensures r.Own? ==> r.value == own[key]
    ensures r.Inherited? <==> key !in own && key in ObjectPrototypeMembers
    ensures r.Inherited? ==> r.member == key
  {
    if key in own then Own(own[key])
    else if key in ObjectPrototypeMembers then Inherited(key)
    else Undefined
  }

  const Flags: map<string, string> :=
    map["en" := "\U{1F1F8}\U{1F1EC}", "zh" := "\U{1F1E8}\U{1F1F3}", "ms" := "\U{1F1F2}\U{1F1FE}"]

  /** The flag shown for the language: `flags[language]`. A language outside the list reads
      an inherited member when it names one, and `undefined` otherwise. */
  function CurrentFlag(language: string): (r: Lookup)
    ensures r.Own? <==> language in Languages
    ensures r.Inherited? <==> language in ObjectPrototypeMembers
    ensures r.Undefined? <==> language !in Languages && language !in ObjectPrototypeMembers
    ensures r.Inherited? ==> r.member == language
  {
    LookUp(Flags, language)
  }

  /** Different languages show different flags, so the flag identifies the language. */
  lemma FlagsDistinct(a: string, b: string)
    requires a in Languages && b in Languages && a != b
    ensures CurrentFlag(a) != CurrentFlag(b)
  {
  }

  const Indicators: map<string, string> := map["small" := "S", "medium" := "M", "large" := "L"]

  /** The letter shown for the font size: `indicators[size]`. A size outside the list reads an
      inherited member when it names one, and `undefined` otherwise. */
  function FontSizeIndicator(size: string): (r: Lookup)
    ensures r.Own? <==> size in FontSizes
    ensures r.Inherited? <==> size in ObjectPrototypeMembers
    ensures r.Undefined? <==> size !in FontSizes && size !in ObjectPrototypeMembers
    ensures r.Inherited? ==> r.member == size
  {
    LookUp(Indicators, size)
  }

  /** A stored value naming an `Object.prototype` member reads that member, not `undefined`. */
  lemma PrototypeKeysReadInherited()
    ensures CurrentFlag("constructor") == Inherited("constructor")
    ensures CurrentFlag("__proto__") == Inherited("__proto__")
    ensures FontSizeIndicator("toString") == Inherited("toString")
    ensures CurrentFlag("fr") == Undefined
  {
  }

  /** Each indicator is the capitalised first letter of its size. */
  lemma IndicatorIsInitial(size: string)
    requires size in FontSizes
    ensures FontSizeIndicator(size) == Own([(size[0] as int - 32) as char])
  {
  }
}
