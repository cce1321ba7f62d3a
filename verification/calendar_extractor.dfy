/** The deterministic parts of calendar extraction: the MIME-type check made before any upload,
    cleaning the model's reply, ordering the extracted events and stamping the metadata. */
module CalendarExtractor {
  import opened Wrappers
  import opened Strings
  import opened Json

  // ---------------------------------------------------------------- MIME type

  const SupportedMimeTypes: seq<string> := [
    "image/png",
    "image/jpeg",
    "image/jpg",
    "image/webp",
    "application/pdf",
    "application/vnd.openxmlformats-officedocument.presentationml.presentation"
  ]

  const UnsupportedType: string := "file type not supported"
  const MissingApiKey: string := "GEMINI_API_KEY is not set"

  /** Lower-case, then spell `image/jpg` as `image/jpeg`. */
  function NormalizeMime(mime: string): (r: string)
    ensures r != "image/jpg"
    ensures forall i :: 0 <= i < |r| ==> !IsUpper(r[i])
    ensures ToLower(mime) != "image/jpg" ==> r == ToLower(mime)
    ensures ToLower(mime) == "image/jpg" ==> r == "image/jpeg"
  {
    var lower := ToLower(mime);
    if lower == "image/jpg" then "image/jpeg" else lower
  }

  /** Normalising twice is normalising once, and the letter case of the input does not matter. */
  lemma NormalizeMimeCanonical(mime: string)
    ensures NormalizeMime(NormalizeMime(mime)) == NormalizeMime(mime)
    ensures NormalizeMime(ToLower(mime)) == NormalizeMime(mime)
  {
    ToLowerIdempotent(mime);
    var r := NormalizeMime(mime);
    assert ToLower(r) == r;
  }

  /** The checks made before any temporary file or API work: first the type, then the key.
      On success the result is the normalised type that is uploaded. */
  function Preflight(mime: string, apiKey: Option<string>): (r: Result<string, string>)
    ensures r.Success? <==> NormalizeMime(mime) in SupportedMimeTypes && apiKey.Some? && apiKey.value != ""
    ensures NormalizeMime(mime) !in SupportedMimeTypes ==> r == Failure(UnsupportedType)
    ensures r.Success? ==> r.value == NormalizeMime(mime) && r.value != "image/jpg"
  {
    var normalized := NormalizeMime(mime);
    if normalized !in SupportedMimeTypes then Failure(UnsupportedType)
    else if apiKey.None? || apiKey.value == "" then Failure(MissingApiKey)
    else Success(normalized)
  }

  /** Which types pass: exactly the five distinct supported formats, in any letter case, with
      `jpg` accepted as an alias of `jpeg`. */
  lemma SupportedTypes(mime: string)
    ensures NormalizeMime(mime) in SupportedMimeTypes <==>
              NormalizeMime(mime) in {"image/png", "image/jpeg", "image/webp", "application/pdf",
                                      "application/vnd.openxmlformats-officedocument.presentationml.presentation"}
    ensures ToLower(mime) == "image/jpg" ==> NormalizeMime(mime) in SupportedMimeTypes
  {
  }

  // ---------------------------------------------------------------- reply text

  /** The characters `String.prototype.trim` removes: the white space characters (tab, vertical
      tab, form feed, space, no-break space, the byte order mark and the space separators of
      Unicode) and the line terminators. */
  const JsSpaces: set<char> := {
      ' ', '\t', '\n', '\r', '\U{000B}', '\U{000C}', '\U{00A0}', '\U{1680}',
      '\U{2000}', '\U{2001}', '\U{2002}', '\U{2003}', '\U{2004}', '\U{2005}', '\U{2006}', '\U{2007}',
      '\U{2008}', '\U{2009}', '\U{200A}', '\U{2028}', '\U{2029}', '\U{202F}', '\U{205F}', '\U{3000}',
      '\U{FEFF}'}

  predicate IsJsSpace(c: char)
  {
    c in JsSpaces
  }

  /** The first position at or after `i` that does not hold white space. */
  function SkipSpaces(s: string, i: nat): (k: nat)
    requires i <= |s|
    ensures i <= k <= |s|
    ensures forall j :: i <= j < k ==> IsJsSpace(s[j])
    ensures k == |s| || !IsJsSpace(s[k])
    decreases |s| - i
  {
    if i < |s| && IsJsSpace(s[i]) then SkipSpaces(s, i + 1) else i
  }

  /** The end of `s[lo..hi]` once the white space at its end is dropped. */
  function BackOverSpaces(s: string, lo: nat, hi: nat): (e: nat)
    requires lo <= hi <= |s|
    ensures lo <= e <= hi
    ensures forall j :: e <= j < hi ==> IsJsSpace(s[j])
    ensures e == lo || !IsJsSpace(s[e - 1])
    decreases hi
  {
    if lo < hi && IsJsSpace(s[hi - 1]) then BackOverSpaces(s, lo, hi - 1) else hi
  }

  /** `String.prototype.trim`: white space removed from both ends, nothing else. The result is
      the slice of the input that starts at its first non-white-space character; everything
      before and after that slice is white space, and the slice neither starts nor ends with
      white space. */
  function Trim(s: string): (r: string)
    ensures |r| <= |s|
    ensures |r| == 0 || (!IsJsSpace(r[0]) && !IsJsSpace(r[|r| - 1]))
    ensures var k := SkipSpaces(s, 0);
            && k + |r| <= |s| && r == s[k..k + |r|]
            && (forall i :: 0 <= i < k ==> IsJsSpace(s[i]))
            && (forall i :: k + |r| <= i < |s| ==> IsJsSpace(s[i]))
  {
    var k := SkipSpaces(s, 0);
    s[k..BackOverSpaces(s, k, |s|)]
  }

  /** Trimming gives the empty string exactly for blank input. */
  lemma TrimEmptyIffBlank(s: string)
    ensures Trim(s) == "" <==> forall i :: 0 <= i < |s| ==> IsJsSpace(s[i])
  {
    var k := SkipSpaces(s, 0);
    if Trim(s) != "" {
      assert Trim(s)[0] == s[k];
    }
  }

  lemma TrimIdempotent(s: string)
    ensures Trim(Trim(s)) == Trim(s)
  {
    var r := Trim(s);
    assert SkipSpaces(r, 0) == 0;
    assert BackOverSpaces(r, 0, |r|) == |r|;
  }

  const OpeningFence: string := "```json"
  const ClosingFence: string := "```"

  /** `replace(/^```json\n?/, "")`. */
  function DropOpeningFence(s: string): (r: string)
    ensures StartsWith(s, OpeningFence + "\n") ==> s == OpeningFence + "\n" + r
    ensures StartsWith(s, OpeningFence) && !StartsWith(s, OpeningFence + "\n") ==> s == OpeningFence + r
    ensures !StartsWith(s, OpeningFence) ==> r == s
  {
    if StartsWith(s, OpeningFence) then
      var t := s[|OpeningFence|..];
      if |t| > 0 && t[0] == '\n' then t[1..] else t
    else s
  }

  /** `replace(/\n?```$/, "")`: the leftmost match takes the newline when there is one. */
  function DropClosingFence(s: string): (r: string)
    ensures EndsWith(s, "\n" + ClosingFence) ==> s == r + "\n" + ClosingFence
    ensures EndsWith(s, ClosingFence) && !EndsWith(s, "\n" + ClosingFence) ==> s == r + ClosingFence
    ensures !EndsWith(s, ClosingFence) ==> r == s
  {
    if EndsWith(s, ClosingFence) then
      var t := s[..|s| - |ClosingFence|];
      if |t| > 0 && t[|t| - 1] == '\n' then t[..|t| - 1] else t
    else s
  }

  /** The defensive clean-up of the model's reply before it is parsed as JSON. */
  function StripFences(reply: string): (r: string)
    ensures |r| == 0 || (!IsJsSpace(r[0]) && !IsJsSpace(r[|r| - 1]))
    ensures r == Trim(DropClosingFence(DropOpeningFence(reply)))
  {
    var unopened := DropOpeningFence(reply);
    var unclosed := DropClosingFence(unopened);
    Trim(unclosed)
  }

  /** A reply without fences is only trimmed. */
  lemma UnfencedReplyIsTrimmed(reply: string)
    requires !StartsWith(reply, OpeningFence) && !EndsWith(reply, ClosingFence)
    ensures StripFences(reply) == Trim(reply)
  {
  }

  /** A reply fenced as a markdown JSON block gives back the block's trimmed content, whatever
      that content is. */
  lemma FencedReplyRoundTrip(content: string)
    ensures StripFences(OpeningFence + "\n" + content + "\n" + ClosingFence) == Trim(content)
  {
    var s := OpeningFence + "\n" + content + "\n" + ClosingFence;
    StartsWithConcat(OpeningFence, "\n" + content + "\n" + ClosingFence);
    assert s == OpeningFence + ("\n" + content + "\n" + ClosingFence);
    assert s[|OpeningFence|..] == "\n" + content + "\n" + ClosingFence;
    var afterOpen := content + "\n" + ClosingFence;
    assert DropOpeningFence(s) == afterOpen;
    EndsWithConcat(content + "\n", ClosingFence);
    assert afterOpen[..|afterOpen| - |ClosingFence|] == content + "\n";
    assert (content + "\n")[..|content|] == content;
  }

  /** A reply that opens a JSON fence on its own line but never closes it gives back the
      trimmed rest. */
  lemma OpeningFenceOnly(content: string)
    requires !EndsWith(content, ClosingFence)
    ensures StripFences(OpeningFence + "\n" + content) == Trim(content)
  {
    var s := OpeningFence + "\n" + content;
    StartsWithConcat(OpeningFence + "\n", content);
    assert DropOpeningFence(s) == content;
  }

  /** A reply that only closes a fence, on its own line, gives back the trimmed text before it. */
  lemma ClosingFenceOnly(content: string)
    requires !StartsWith(content, OpeningFence)
    ensures StripFences(content + "\n" + ClosingFence) == Trim(content)
  {
    var s := content + "\n" + ClosingFence;
    if |content| < |OpeningFence| {
      DiffersAt(s, OpeningFence, |content|);
    } else {
      assert s[..|OpeningFence|] == content[..|OpeningFence|];
    }
    assert DropOpeningFence(s) == s;
    assert s == content + ("\n" + ClosingFence);
    EndsWithConcat(content, "\n" + ClosingFence);
    assert DropClosingFence(s) == content;
  }

  /** A fence opened and closed on the content's own lines (no newlines next to the fences)
      gives back the trimmed content. */
  lemma SameLineFences(content: string)
    requires |content| > 0 && content[0] != '\n' && content[|content| - 1] != '\n'
    ensures StripFences(OpeningFence + content + ClosingFence) == Trim(content)
  {
    var s := OpeningFence + content + ClosingFence;
    StartsWithConcat(OpeningFence, content + ClosingFence);
    assert s == OpeningFence + (content + ClosingFence);
    DiffersAt(s, OpeningFence + "\n", |OpeningFence|);
    var t := content + ClosingFence;
    assert DropOpeningFence(s) == t;
    EndsWithConcat(content, ClosingFence);
    assert t[|t| - 4] == content[|content| - 1];
    DiffersAtEnd(t, "\n" + ClosingFence, 0);
  }

  /** An opening fence on its own line and a closing fence right after the content give back
      the trimmed content. */
  lemma OpeningLineClosingSameLine(content: string)
    requires |content| == 0 || content[|content| - 1] != '\n'
    ensures StripFences(OpeningFence + "\n" + content + ClosingFence) == Trim(content)
  {
    var s := OpeningFence + "\n" + content + ClosingFence;
    var t := content + ClosingFence;
    StartsWithConcat(OpeningFence + "\n", t);
    assert s == (OpeningFence + "\n") + t;
    assert DropOpeningFence(s) == t;
    EndsWithConcat(content, ClosingFence);
    if |content| > 0 {
      assert t[|t| - 4] == content[|content| - 1];
      DiffersAtEnd(t, "\n" + ClosingFence, 0);
    }
    assert t[..|t| - |ClosingFence|] == content;
  }

  /** An opening fence right before the content and a closing fence on its own line give back
      the trimmed content. */
  lemma OpeningSameLineClosingLine(content: string)
    requires |content| > 0 && content[0] != '\n'
    ensures StripFences(OpeningFence + content + "\n" + ClosingFence) == Trim(content)
  {
    var s := OpeningFence + content + "\n" + ClosingFence;
    var t := content + "\n" + ClosingFence;
    StartsWithConcat(OpeningFence, t);
    assert s == OpeningFence + t;
    DiffersAt(s, OpeningFence + "\n", |OpeningFence|);
    assert DropOpeningFence(s) == t;
    assert t == content + ("\n" + ClosingFence);
    EndsWithConcat(content, "\n" + ClosingFence);
    assert DropClosingFence(t) == content;
  }

  /** A reply that only closes a fence, right after the text, gives back the trimmed text. */
  lemma ClosingSameLineOnly(content: string)
    requires !StartsWith(content, OpeningFence)
    requires |content| == 0 || content[|content| - 1] != '\n'
    ensures StripFences(content + ClosingFence) == Trim(content)
  {
    var s := content + ClosingFence;
    if |content| >= |OpeningFence| {
      assert s[..|OpeningFence|] == content[..|OpeningFence|];
    } else if |s| >= |OpeningFence| {
      DiffersAt(s, OpeningFence, 6);
    }
    assert DropOpeningFence(s) == s;
    EndsWithConcat(content, ClosingFence);
    if |content| > 0 {
      assert s[|s| - 4] == content[|content| - 1];
      DiffersAtEnd(s, "\n" + ClosingFence, 0);
    }
    assert s[..|s| - |ClosingFence|] == content;
  }

  /** A reply that opens a fence right before the text and never closes it gives back the
      trimmed text. */
  lemma OpeningSameLineOnly(content: string)
    requires |content| == 0 || content[0] != '\n'
    requires !EndsWith(content, ClosingFence)
    ensures StripFences(OpeningFence + content) == Trim(content)
  {
    var s := OpeningFence + content;
    StartsWithConcat(OpeningFence, content);
    if |content| > 0 {
      DiffersAt(s, OpeningFence + "\n", |OpeningFence|);
    }
    assert s[|OpeningFence|..] == content;
    assert DropOpeningFence(s) == content;
  }

  // ---------------------------------------------------------------- ordering

  datatype CalendarEvent = CalendarEvent(
    event_name: string,
    date_iso: Option<string>,
    date_text: Option<string>,
    start_time: Option<string>,
    end_time: Option<string>,
    location: Option<string>,
    notes: Option<string>,
    source_text: Option<string>)

  /** Ordinal string comparison, standing in for `localeCompare` on ISO dates and HH:MM times. */
  function StrCmp(a: string, b: string): (c: int)
    ensures -1 <= c <= 1
    ensures c == 0 <==> a == b
    decreases |a|
  {
    if |a| == 0 then (if |b| == 0 then 0 else -1)
    else if |b| == 0 then 1
    else if a[0] < b[0] then -1
    else if a[0] > b[0] then 1
    else
      assert a == [a[0]] + a[1..] && b == [b[0]] + b[1..];
      StrCmp(a[1..], b[1..])
  }

  lemma {:induction false} StrCmpAntisymmetric(a: string, b: string)
    ensures StrCmp(a, b) == -StrCmp(b, a)
    decreases |a|
  {
    if |a| > 0 && |b| > 0 && a[0] == b[0] {
      StrCmpAntisymmetric(a[1..], b[1..]);
    }
  }

  lemma {:induction false} StrCmpTransitive(a: string, b: string, c: string)
    requires StrCmp(a, b) <= 0 && StrCmp(b, c) <= 0
    ensures StrCmp(a, c) <= 0
    decreases |a|
  {
    if |a| > 0 && |b| > 0 && |c| > 0 && a[0] == b[0] && b[0] == c[0] {
      StrCmpTransitive(a[1..], b[1..], c[1..]);
    }
  }

  /** An event with a (non-empty) ISO date. */
  predicate Dated(e: CalendarEvent)
  {
    e.date_iso.Some? && e.date_iso.value != ""
  }

  /** `(start_time || "")`. */
  function StartKey(e: CalendarEvent): string
  {
    e.start_time.GetOr("")
  }

  /** The `events.sort` comparator: dated events first, by date then start time; undated
      events are all equivalent. */
  function Compare(a: CalendarEvent, b: CalendarEvent): (c: int)
    ensures -1 <= c <= 1
    ensures Dated(a) && !Dated(b) ==> c < 0
    ensures !Dated(a) && !Dated(b) ==> c == 0
    ensures Dated(a) && Dated(b) && a.date_iso != b.date_iso ==> c == StrCmp(a.date_iso.value, b.date_iso.value) != 0
    ensures Dated(a) && Dated(b) && a.date_iso == b.date_iso ==> c == StrCmp(StartKey(a), StartKey(b))
  {
    if Dated(a) && Dated(b) then
      if a.date_iso.value != b.date_iso.value then StrCmp(a.date_iso.value, b.date_iso.value)
      else StrCmp(StartKey(a), StartKey(b))
    else if Dated(a) then -1
    else if Dated(b) then 1
    else 0
  }

  /** Swapping the arguments negates the comparison. */
  lemma CompareAntisymmetric(a: CalendarEvent, b: CalendarEvent)
    ensures Compare(a, b) == -Compare(b, a)
  {
    if Dated(a) && Dated(b) {
      StrCmpAntisymmetric(a.date_iso.value, b.date_iso.value);
      StrCmpAntisymmetric(StartKey(a), StartKey(b));
    }
  }

  /** The comparator is transitive, so together with antisymmetry it is a total preorder,
      as `Array.prototype.sort` needs. */
  lemma CompareTransitive(a: CalendarEvent, b: CalendarEvent, c: CalendarEvent)
    requires Compare(a, b) <= 0 && Compare(b, c) <= 0
    ensures Compare(a, c) <= 0
  {
    if Dated(a) && Dated(b) && Dated(c) {
      var da, db, dc := a.date_iso.value, b.date_iso.value, c.date_iso.value;
      if da == db && db == dc {
        StrCmpTransitive(StartKey(a), StartKey(b), StartKey(c));
      } else if da == db {
        assert Compare(a, c) == StrCmp(db, dc);
      } else if db == dc {
        assert Compare(a, c) == StrCmp(da, db);
      } else {
        StrCmpTransitive(da, db, dc);
        if da == dc {
          StrCmpAntisymmetric(da, db);
        }
      }
    }
  }

  lemma CompareStrictLeft(a: CalendarEvent, b: CalendarEvent, c: CalendarEvent)
    requires Compare(a, b) > 0 && Compare(b, c) >= 0
    ensures Compare(a, c) > 0
  {
    CompareAntisymmetric(a, b);
    CompareAntisymmetric(b, c);
    CompareAntisymmetric(a, c);
    if Compare(a, c) <= 0 {
      CompareTransitive(c, b, a);
    }
  }

  ghost predicate Sorted(s: seq<CalendarEvent>)
  {
    forall i, j :: 0 <= i < j < |s| ==> Compare(s[i], s[j]) <= 0
  }

  /** Every element of `t` compares at or above `y`. */
  ghost predicate AllAbove(y: CalendarEvent, t: seq<CalendarEvent>)
  {
    forall i :: 0 <= i < |t| ==> Compare(y, t[i]) <= 0
  }

  lemma PrependSorted(y: CalendarEvent, t: seq<CalendarEvent>)
    requires Sorted(t) && AllAbove(y, t)
    ensures Sorted([y] + t)
  {
    var r := [y] + t;
    forall i, j | 0 <= i < j < |r|
      ensures Compare(r[i], r[j]) <= 0
    {
      assert r[j] == t[j - 1];
      if i > 0 {
        assert r[i] == t[i - 1];
      }
    }
  }

  lemma AllAboveSameElements(y: CalendarEvent, t: seq<CalendarEvent>, u: seq<CalendarEvent>)
    requires multiset(t) == multiset(u) && AllAbove(y, u)
    ensures AllAbove(y, t)
  {
    forall i | 0 <= i < |t|
      ensures Compare(y, t[i]) <= 0
    {
      assert t[i] in multiset(u);
      var j :| 0 <= j < |u| && u[j] == t[i];
    }
  }

  /** Something at or below the head of a sorted list is at or below all of it. */
  lemma BelowHead(x: CalendarEvent, s: seq<CalendarEvent>)
    requires Sorted(s) && |s| > 0 && Compare(x, s[0]) <= 0
    ensures AllAbove(x, s)
  {
    forall i | 0 < i < |s|
      ensures Compare(x, s[i]) <= 0
    {
      CompareTransitive(x, s[0], s[i]);
    }
  }

  /** Insert `x` into `s` after every leading element that does not compare above it. */
  function Insert(x: CalendarEvent, s: seq<CalendarEvent>): (r: seq<CalendarEvent>)
    ensures multiset(r) == multiset(s) + multiset{x}
  {
    if |s| == 0 then [x]
    else if Compare(s[0], x) > 0 then [x] + s
    else
      assert s == [s[0]] + s[1..];
      [s[0]] + Insert(x, s[1..])
  }

  /** Inserting into a sorted list keeps it sorted. */
  lemma {:induction false} InsertSorted(x: CalendarEvent, s: seq<CalendarEvent>)
    requires Sorted(s)
    ensures Sorted(Insert(x, s))
    decreases |s|
  {
    if |s| == 0 {
    } else if Compare(s[0], x) > 0 {
      CompareAntisymmetric(s[0], x);
      BelowHead(x, s);
      PrependSorted(x, s);
    } else {
      var tail := s[1..];
      assert Sorted(tail);
      InsertSorted(x, tail);
      var rest := Insert(x, tail);
      assert AllAbove(s[0], tail + [x]) by {
        assert forall i :: 0 <= i < |tail| ==> (tail + [x])[i] == s[i + 1];
      }
      AllAboveSameElements(s[0], rest, tail + [x]);
      PrependSorted(s[0], rest);
    }
  }

  /** `events.sort(compare)`: a stable insertion sort, taking each element in input order. */
  function Sort(s: seq<CalendarEvent>): (r: seq<CalendarEvent>)
    ensures multiset(r) == multiset(s)
    ensures Sorted(r)
  {
    if |s| == 0 then []
    else
      assert s == s[..|s| - 1] + [s[|s| - 1]];
      var sorted := Sort(s[..|s| - 1]);
      InsertSorted(s[|s| - 1], sorted);
      Insert(s[|s| - 1], sorted)
  }

  /** Sorting an already sorted list changes nothing: the sort keeps the order of equivalent
      events. */
  lemma {:induction false} SortOfSorted(s: seq<CalendarEvent>)
    requires Sorted(s)
    ensures Sort(s) == s
    decreases |s|
  {
    if |s| > 0 {
      var prefix := s[..|s| - 1];
      var x := s[|s| - 1];
      assert Sorted(prefix);
      SortOfSorted(prefix);
      InsertAfterAll(x, prefix);
      assert prefix + [x] == s;
    }
  }

  lemma {:induction false} InsertAfterAll(x: CalendarEvent, s: seq<CalendarEvent>)
    requires Sorted(s)
    requires forall i :: 0 <= i < |s| ==> Compare(s[i], x) <= 0
    ensures Insert(x, s) == s + [x]
    decreases |s|
  {
    if |s| > 0 {
      assert Sorted(s[1..]);
      InsertAfterAll(x, s[1..]);
      assert [s[0]] + (s[1..] + [x]) == s + [x];
    }
  }

  /** The events of `s` that compare equal to `k`, in their order in `s`. */
  function Class(s: seq<CalendarEvent>, k: CalendarEvent): seq<CalendarEvent>
  {
    if |s| == 0 then []
    else (if Compare(s[0], k) == 0 then [s[0]] else []) + Class(s[1..], k)
  }

  lemma {:induction false} ClassAppend(p: seq<CalendarEvent>, x: CalendarEvent, k: CalendarEvent)
    ensures Class(p + [x], k) == Class(p, k) + (if Compare(x, k) == 0 then [x] else [])
    decreases |p|
  {
    if |p| == 0 {
      assert p + [x] == [x];
    } else {
      assert (p + [x])[1..] == p[1..] + [x];
      ClassAppend(p[1..], x, k);
    }
  }

  lemma {:induction false} ClassEmpty(t: seq<CalendarEvent>, k: CalendarEvent)
    requires forall i :: 0 <= i < |t| ==> Compare(t[i], k) != 0
    ensures Class(t, k) == []
    decreases |t|
  {
    if |t| > 0 {
      ClassEmpty(t[1..], k);
    }
  }

  /** Something strictly below the head of a sorted list is strictly below all of it. */
  lemma AboveHeadStrict(x: CalendarEvent, t: seq<CalendarEvent>)
    requires Sorted(t) && |t| > 0 && Compare(t[0], x) > 0
    ensures forall i :: 0 <= i < |t| ==> Compare(t[i], x) > 0
  {
    forall i | 0 < i < |t|
      ensures Compare(t[i], x) > 0
    {
      if Compare(t[i], x) <= 0 {
        CompareTransitive(t[0], t[i], x);
      }
    }
  }

  /** A sorted list whose head is strictly above `x` holds nothing equivalent to `x`. */
  lemma NoneEquivalentAbove(x: CalendarEvent, t: seq<CalendarEvent>, k: CalendarEvent)
    requires Sorted(t) && |t| > 0 && Compare(t[0], x) > 0 && Compare(x, k) == 0
    ensures Class(t, k) == []
  {
    AboveHeadStrict(x, t);
    forall i | 0 <= i < |t|
      ensures Compare(t[i], k) != 0
    {
      CompareStrictLeft(t[i], x, k);
    }
    ClassEmpty(t, k);
  }

  /** Insertion puts `x` after every event equivalent to it. */
  lemma {:induction false} InsertClass(x: CalendarEvent, t: seq<CalendarEvent>, k: CalendarEvent)
    requires Sorted(t)
    ensures Class(Insert(x, t), k) == Class(t, k) + (if Compare(x, k) == 0 then [x] else [])
    decreases |t|
  {
    if |t| == 0 {
    } else if Compare(t[0], x) > 0 {
      if Compare(x, k) == 0 {
        NoneEquivalentAbove(x, t, k);
      }
      assert Insert(x, t) == [x] + t;
      assert ([x] + t)[1..] == t;
    } else {
      assert Sorted(t[1..]);
      InsertClass(x, t[1..], k);
      assert ([t[0]] + Insert(x, t[1..]))[1..] == Insert(x, t[1..]);
    }
  }

  /** The sort is stable: events that compare equal (in particular all undated events) keep
      the order the model returned them in. */
  lemma {:induction false} SortStable(s: seq<CalendarEvent>, k: CalendarEvent)
    ensures Class(Sort(s), k) == Class(s, k)
    decreases |s|
  {
    if |s| > 0 {
      var p := s[..|s| - 1];
      var x := s[|s| - 1];
      SortStable(p, k);
      InsertClass(x, Sort(p), k);
      ClassAppend(p, x, k);
      assert p + [x] == s;
    }
  }

  // ---------------------------------------------------------------- result

  /** The `events` member of the parsed reply: sorted only when it is an array. */
  datatype EventList = Listed(items: seq<CalendarEvent>) | Unlisted(value: JsValue)

  datatype Extraction = Extraction(meta: map<string, JsValue>, events: EventList)

  /** `{ ...parsed.meta, source_filename: filename, source_mime: originalMimeType }`. */
  function StampMeta(meta: map<string, JsValue>, filename: string, originalMime: string): (r: map<string, JsValue>)
    ensures r.Keys == meta.Keys + {"source_filename", "source_mime"}
    ensures r["source_filename"] == Str(filename) && r["source_mime"] == Str(originalMime)
    ensures forall k :: k in meta && k != "source_filename" && k != "source_mime" ==> r[k] == meta[k]
  {
    meta["source_filename" := Str(filename)]["source_mime" := Str(originalMime)]
  }

  /** The post-processing of the parsed reply. */
  function Finish(parsed: Extraction, filename: string, originalMime: string): (r: Extraction)
    ensures r.meta == StampMeta(parsed.meta, filename, originalMime)
    ensures parsed.events.Unlisted? ==> r.events == parsed.events
    ensures parsed.events.Listed? ==>
              && r.events.Listed?
              && multiset(r.events.items) == multiset(parsed.events.items)
              && Sorted(r.events.items)
  {
    var events := match parsed.events
                  case Listed(items) => Listed(Sort(items))
                  case Unlisted(v) => Unlisted(v);
    Extraction(StampMeta(parsed.meta, filename, originalMime), events)
  }

  /** The metadata records the type as the caller gave it, not the normalised type used for
      the upload. */
  lemma FinishKeepsOriginalMime(parsed: Extraction, filename: string, originalMime: string, apiKey: Option<string>)
    requires Preflight(originalMime, apiKey).Success?
    ensures Finish(parsed, filename, originalMime).meta["source_mime"] == Str(originalMime)
    ensures ToLower(originalMime) == "image/jpg" ==>
              Finish(parsed, filename, originalMime).meta["source_mime"] != Str(Preflight(originalMime, apiKey).value)
  {
    assert |ToLower(originalMime)| == |originalMime|;
  }

  /** Post-processing a finished result again changes nothing. */
  lemma FinishIdempotent(parsed: Extraction, filename: string, originalMime: string)
    ensures Finish(Finish(parsed, filename, originalMime), filename, originalMime) == Finish(parsed, filename, originalMime)
  {
    var once := Finish(parsed, filename, originalMime);
    if parsed.events.Listed? {
      SortOfSorted(once.events.items);
    }
    assert StampMeta(once.meta, filename, originalMime) == once.meta;
  }
}
