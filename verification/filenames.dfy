/** Output naming: `sanitize_filename_component` and the `parts` logic in
    `main`. Python's `\w`, `str.isspace` and `str.lower` are Unicode-wide;
    here they are defined for ASCII and the basic Cyrillic block, which is
    what the catalog's slugs and category names use. */
module Filenames {

  /** Python's `str.isspace()` characters (the full set). */
  predicate IsSpace(c: char)
  {
    || c == ' ' || c == '\t' || c == '\n' || c == '\r'
    || c == '\U{000B}' || c == '\U{000C}'
    || ('\U{001C}' <= c <= '\U{001F}')
    || c == '\U{0085}' || c == '\U{00A0}' || c == '\U{1680}'
    || ('\U{2000}' <= c <= '\U{200A}')
    || c == '\U{2028}' || c == '\U{2029}' || c == '\U{202F}' || c == '\U{205F}' || c == '\U{3000}'
  }

  /** `\w`: letters, digits and underscore (ASCII and Cyrillic U+0400..U+045F). */
  predicate IsWordChar(c: char)
  {
    || ('a' <= c <= 'z') || ('A' <= c <= 'Z') || ('0' <= c <= '9') || c == '_'
    || ('\U{0400}' <= c <= '\U{045F}')
  }

  /** Characters `str.lower` changes. */
  predicate IsUpper(c: char)
  {
    ('A' <= c <= 'Z') || ('\U{0400}' <= c <= '\U{042F}')
  }

  /** `str.lower` on one character: Latin A-Z, Cyrillic А-Я (U+0410..U+042F)
      and Ѐ-Џ (U+0400..U+040F, which includes Ё) map to their lower case. */
  function Lower(c: char): (r: char)
    ensures !IsUpper(r)
    ensures !IsUpper(c) ==> r == c
    ensures IsWordChar(r) <==> IsWordChar(c)
    ensures IsSpace(r) <==> IsSpace(c)
  {
    if 'A' <= c <= 'Z' then (c as int + 32) as char
    else if '\U{0410}' <= c <= '\U{042F}' then (c as int + 0x20) as char
    else if '\U{0400}' <= c <= '\U{040F}' then (c as int + 0x50) as char
    else c
  }

  /** The characters a sanitised component may contain. */
  predicate IsSafeChar(c: char)
  {
    IsWordChar(c) || c == '-'
  }

  /** The length of the leading run of whitespace. */
  function LeadingSpaces(s: string): (n: nat)
    ensures n <= |s|
    ensures forall k :: 0 <= k < n ==> IsSpace(s[k])
    ensures n < |s| ==> !IsSpace(s[n])
  {
    if |s| == 0 || !IsSpace(s[0]) then 0
    else 1 + LeadingSpaces(s[1..])
  }

  /** Where the trailing run of whitespace starts. */
  function TrailingStart(s: string): (n: nat)
    ensures n <= |s|
    ensures forall k :: n <= k < |s| ==> IsSpace(s[k])
    ensures n > 0 ==> !IsSpace(s[n - 1])
  {
    if |s| == 0 || !IsSpace(s[|s| - 1]) then |s|
    else TrailingStart(s[..|s| - 1])
  }

  /** The bounds of `str.strip()`: what lies outside them is whitespace, and
      a non-empty inside neither starts nor ends with whitespace. */
  function StripBounds(s: string): (b: (nat, nat))
    ensures b.0 <= b.1 <= |s|
    ensures forall k :: 0 <= k < b.0 ==> IsSpace(s[k])
    ensures forall k :: b.1 <= k < |s| ==> IsSpace(s[k])
    ensures b.0 < b.1 ==> !IsSpace(s[b.0]) && !IsSpace(s[b.1 - 1])
  {
    var i := LeadingSpaces(s);
    if i == |s| then (i, i) else (i, TrailingStart(s))
  }

  /** `str.strip()`. */
  function Strip(s: string): string
  {
    s[StripBounds(s).0..StripBounds(s).1]
  }

  /** One character of `re.sub(r"[^\w\-]", "_", value.lower())`. */
  function SafeChar(c: char): char
  {
    var l := Lower(c);
    if IsSafeChar(l) then l else '_'
  }

  function SafeChars(s: string): (r: string)
    ensures |r| == |s|
    ensures forall k :: 0 <= k < |s| ==> r[k] == SafeChar(s[k])
  {
    if |s| == 0 then "" else [SafeChar(s[0])] + SafeChars(s[1..])
  }

  /** `sanitize_filename_component`: strip, lower-case, and replace every
      character that is neither a word character nor `-` by `_`. */
  function Sanitize(s: string): (r: string)
    ensures |r| == |Strip(s)|
    ensures forall k :: 0 <= k < |r| ==> IsSafeChar(r[k]) && !IsUpper(r[k])
    ensures forall k :: 0 <= k < |r| ==>
              (IsSafeChar(Lower(Strip(s)[k])) ==> r[k] == Lower(Strip(s)[k]))
              && (!IsSafeChar(Lower(Strip(s)[k])) ==> r[k] == '_')
  {
    SafeChars(Strip(s))
  }

  lemma SafeCharNotSpace(c: char)
    requires IsSafeChar(c)
    ensures !IsSpace(c)
  {
  }

  /** A string with no whitespace is its own strip. */
  lemma StripNoSpace(s: string)
    requires forall k :: 0 <= k < |s| ==> !IsSpace(s[k])
    ensures Strip(s) == s
  {
    if |s| > 0 {
      assert !IsSpace(s[0]);
      assert !IsSpace(s[|s| - 1]);
    }
  }

  /** Sanitising is idempotent. */
  lemma SanitizeIdempotent(s: string)
    ensures Sanitize(Sanitize(s)) == Sanitize(s)
  {
    var r := Sanitize(s);
    forall k | 0 <= k < |r|
      ensures !IsSpace(r[k]) && SafeChar(r[k]) == r[k]
    {
      SafeCharNotSpace(r[k]);
    }
    StripNoSpace(r);
    var r' := SafeChars(r);
    assert |r'| == |r|;
    assert forall k :: 0 <= k < |r| ==> r'[k] == r[k];
  }

  /** A category name with a slash: "Красный/Белый" becomes
      "красный_белый". */
  lemma SanitizeExample()
    ensures Sanitize("Красный/Белый") == "красный_белый"
  {
    ExampleHasNoSpace();
    ExampleChars();
  }

  lemma ExampleHasNoSpace()
    ensures Strip("Красный/Белый") == "Красный/Белый"
  {
    var s := "Красный/Белый";
    assert forall k :: 0 <= k < |s| ==> !IsSpace(s[k]);
    StripNoSpace(s);
  }

  lemma SafeCharCyrillicLower(c: char)
    requires '\U{0430}' <= c <= '\U{045F}'
    ensures SafeChar(c) == c
  {
  }

  lemma SafeCharCyrillicUpper(c: char)
    requires '\U{0410}' <= c <= '\U{042F}'
    ensures SafeChar(c) == (c as int + 0x20) as char
  {
  }

  lemma {:induction false} SafeCharsAppend(a: string, b: string)
    ensures SafeChars(a + b) == SafeChars(a) + SafeChars(b)
  {
    var r := SafeChars(a + b);
    assert forall k :: 0 <= k < |a| ==> r[k] == SafeChar((a + b)[k]) == SafeChar(a[k]);
    assert forall k :: |a| <= k < |a + b| ==> r[k] == SafeChar((a + b)[k]) == SafeChar(b[k - |a|]);
  }

  lemma ExampleChars()
    ensures SafeChars("Красный/Белый") == "красный_белый"
  {
    ExampleSplits();
    SafeCharsAppend("Красный", "/" + "Белый");
    SafeCharsAppend("/", "Белый");
    assert SafeChars("/") == "_";
    RedChars();
    WhiteChars();
  }

  lemma ExampleSplits()
    ensures "Красный" + ("/" + "Белый") == "Красный/Белый"
    ensures "красный" + ("_" + "белый") == "красный_белый"
  {
  }

  lemma RedChars()
    ensures SafeChars("Красный") == "красный"
  {
    var s := "Красный";
    SafeCharCyrillicUpper('К');
    SafeCharCyrillicLower('р');
    SafeCharCyrillicLower('а');
    SafeCharCyrillicLower('с');
    SafeCharCyrillicLower('н');
    SafeCharCyrillicLower('ы');
    SafeCharCyrillicLower('й');
    var r := SafeChars(s);
    assert forall k :: 0 <= k < |s| ==> r[k] == SafeChar(s[k]);
  }

  lemma WhiteChars()
    ensures SafeChars("Белый") == "белый"
  {
    var s := "Белый";
    SafeCharCyrillicUpper('Б');
    SafeCharCyrillicLower('е');
    SafeCharCyrillicLower('л');
    SafeCharCyrillicLower('ы');
    SafeCharCyrillicLower('й');
    var r := SafeChars(s);
    assert forall k :: 0 <= k < |s| ==> r[k] == SafeChar(s[k]);
  }

  /** Python's `sep.join(parts)`. */
  function Join(sep: string, parts: seq<string>): string
  {
    if |parts| == 0 then ""
    else if |parts| == 1 then parts[0]
    else parts[0] + sep + Join(sep, parts[1..])
  }

  /** Each part preceded by the separator, all concatenated: an independent
      description of everything a join writes after its first part. */
  function Prefixed(sep: string, parts: seq<string>): string
  {
    if |parts| == 0 then "" else sep + parts[0] + Prefixed(sep, parts[1..])
  }

  lemma {:induction false} PrefixedAppend(sep: string, a: seq<string>, b: seq<string>)
    ensures Prefixed(sep, a + b) == Prefixed(sep, a) + Prefixed(sep, b)
    decreases |a|
  {
    if |a| == 0 {
      assert a + b == b;
    } else {
      assert (a + b)[1..] == a[1..] + b;
      PrefixedAppend(sep, a[1..], b);
    }
  }

  /** A join is its first part followed by every other part with the
      separator in front. */
  lemma {:induction false} JoinIsFirstThenPrefixed(sep: string, parts: seq<string>)
    requires |parts| > 0
    ensures Join(sep, parts) == parts[0] + Prefixed(sep, parts[1..])
    decreases |parts|
  {
    if |parts| > 1 {
      JoinIsFirstThenPrefixed(sep, parts[1..]);
      assert parts[1..][1..] == parts[2..];
    }
  }

  function SanitizeAll(xs: seq<string>): (r: seq<string>)
    ensures |r| == |xs|
    ensures forall i :: 0 <= i < |xs| ==> r[i] == Sanitize(xs[i])
  {
    seq(|xs|, i requires 0 <= i < |xs| => Sanitize(xs[i]))
  }

  const Prefix: string := "alkoteka"
  const Extension: string := ".ndjson"

  /** The `parts` list of `main`. */
  function FilenameParts(category: string, colors: seq<string>, sugars: seq<string>, fetchAll: bool, timestamp: string): seq<string>
  {
    [Prefix] + PartsAfterPrefix(category, colors, sugars, fetchAll, timestamp)
  }

  function PartsAfterPrefix(category: string, colors: seq<string>, sugars: seq<string>, fetchAll: bool, timestamp: string): seq<string>
  {
    [Sanitize(category)] + SanitizeAll(colors) + SanitizeAll(sugars) + (if fetchAll then ["all"] else []) + [timestamp]
  }

  /** The output file name: `"_".join(parts) + ".ndjson"`. It always starts
      with `alkoteka_` followed by the sanitised category, and ends with
      `_<timestamp>.ndjson`. */
  function OutputFilename(category: string, colors: seq<string>, sugars: seq<string>, fetchAll: bool, timestamp: string): (r: string)
    ensures |r| >= 17 + |Sanitize(category)| + |timestamp|
    ensures r[..9] == Prefix + "_"
    ensures r[9..9 + |Sanitize(category)|] == Sanitize(category)
    ensures r[|r| - |timestamp| - 8..] == "_" + timestamp + Extension
  {
    FilenameLayout(category, colors, sugars, fetchAll, timestamp);
    LayoutShape(Sanitize(category), Middle(SanitizeAll(colors), SanitizeAll(sugars), fetchAll), timestamp);
    Join("_", FilenameParts(category, colors, sugars, fetchAll, timestamp)) + Extension
  }

  /** The name written out piece by piece: prefix, category, each colour and
      each sugar with an underscore in front, `_all` in fetch-all mode, then
      the date stamp and the extension. */
  function Layout(category: string, colors: seq<string>, sugars: seq<string>, fetchAll: bool, timestamp: string): string
  {
    Prefix + ("_" + Sanitize(category) + Middle(SanitizeAll(colors), SanitizeAll(sugars), fetchAll) + ("_" + timestamp))
      + Extension
  }

  lemma FilenameLayout(category: string, colors: seq<string>, sugars: seq<string>, fetchAll: bool, timestamp: string)
    ensures Join("_", FilenameParts(category, colors, sugars, fetchAll, timestamp)) + Extension
            == Layout(category, colors, sugars, fetchAll, timestamp)
  {
    JoinedParts(Sanitize(category), SanitizeAll(colors), SanitizeAll(sugars), fetchAll, timestamp);
  }

  lemma JoinedParts(c: string, cs: seq<string>, ss: seq<string>, fetchAll: bool, timestamp: string)
    ensures Join("_", [Prefix] + ([c] + cs + ss + (if fetchAll then ["all"] else []) + [timestamp]))
            == Prefix + ("_" + c + Middle(cs, ss, fetchAll) + ("_" + timestamp))
  {
    var all: seq<string> := if fetchAll then ["all"] else [];
    var rest := [c] + cs + ss + all + [timestamp];
    var parts := [Prefix] + rest;
    assert parts[0] == Prefix && parts[1..] == rest;
    JoinIsFirstThenPrefixed("_", parts);
    PrefixedAppend("_", [c], cs);
    PrefixedAppend("_", [c] + cs, ss);
    PrefixedAppend("_", [c] + cs + ss, all);
    PrefixedAll(fetchAll);
    PrefixedAppend("_", [c] + cs + ss + all, [timestamp]);
    assert Prefixed("_", [timestamp]) == "_" + timestamp;
    assert Prefixed("_", [c]) == "_" + c;
    assert "_" + c + Prefixed("_", cs) + Prefixed("_", ss) + AllMarker(fetchAll)
        == "_" + c + Middle(cs, ss, fetchAll);
  }

  /** What lies between the category and the date stamp: the colours, the
      sugars and the fetch-all marker. */
  function Middle(cs: seq<string>, ss: seq<string>, fetchAll: bool): string
  {
    Prefixed("_", cs) + Prefixed("_", ss) + AllMarker(fetchAll)
  }

  /** Where the fixed pieces of a laid-out name sit. */
  lemma LayoutShape(c: string, m: string, t: string)
    ensures var r := Prefix + ("_" + c + m + ("_" + t)) + Extension;
            && |r| == 17 + |c| + |m| + |t|
            && r[..9] == Prefix + "_"
            && r[9..9 + |c|] == c
            && r[|r| - |t| - 8..] == "_" + t + Extension
  {
  }

  /** The `_all` marker of fetch-all mode. */
  function AllMarker(fetchAll: bool): string
  {
    if fetchAll then "_all" else ""
  }

  lemma PrefixedAll(fetchAll: bool)
    ensures Prefixed("_", if fetchAll then ["all"] else []) == AllMarker(fetchAll)
  {
    if fetchAll {
      assert Prefixed("_", ["all"]) == "_" + "all" + "";
    }
  }

  /** Fetch-all mode always changes the name: it is four characters longer. */
  lemma FetchAllChangesFilename(category: string, colors: seq<string>, sugars: seq<string>, timestamp: string)
    ensures |OutputFilename(category, colors, sugars, true, timestamp)|
            == |OutputFilename(category, colors, sugars, false, timestamp)| + 4
  {
    FilenameLayout(category, colors, sugars, true, timestamp);
    FilenameLayout(category, colors, sugars, false, timestamp);
  }

  /** Colour and sugar components are not tagged, so the same slug chosen as
      a colour or as a sugar yields the same file name. */
  lemma ColorAndSugarShareNames(category: string, slug: string, fetchAll: bool, timestamp: string)
    ensures OutputFilename(category, [slug], [], fetchAll, timestamp)
            == OutputFilename(category, [], [slug], fetchAll, timestamp)
  {
    FilenameLayout(category, [slug], [], fetchAll, timestamp);
    FilenameLayout(category, [], [slug], fetchAll, timestamp);
    var one := SanitizeAll([slug]);
    var none := SanitizeAll([]);
    assert none == [];
    assert Prefixed("_", none) == "";
    assert Middle(one, none, fetchAll) == Middle(none, one, fetchAll);
  }
}
