/**
 * Document text assembly and the checks made on it before speech: every
 * page's extracted text has its line breaks turned into spaces, the pages are
 * joined with single spaces in page order, the result is only used when it
 * holds a non-whitespace character, and the language detector sees at most
 * its first 1000 characters.
 */
module Text {

  /** Python's `str.isspace` for one code point. */
  predicate IsSpace(c: char) {
    var n := c as int;
    || 0x09 <= n <= 0x0D
    || 0x1C <= n <= 0x20
    || n == 0x85 || n == 0xA0 || n == 0x1680
    || 0x2000 <= n <= 0x200A
    || n == 0x2028 || n == 0x2029 || n == 0x202F || n == 0x205F || n == 0x3000
  }

  predicate AllSpace(s: string) {
    forall i :: 0 <= i < |s| ==> IsSpace(s[i])
  }

  /** The character placed between two pages. */
  const Separator: char := ' '

  /** `s.replace('\n', ' ')`: line breaks become spaces, everything else stays in place. */
  function ReplaceNewlines(s: string): (r: string)
    ensures |r| == |s|
    ensures '\n' !in r
    ensures forall i :: 0 <= i < |s| && s[i] != '\n' ==> r[i] == s[i]
    ensures forall i :: 0 <= i < |s| && s[i] == '\n' ==> r[i] == ' '
  {
    if s == [] then []
    else ReplaceNewlines(s[..|s| - 1]) + [if s[|s| - 1] == '\n' then ' ' else s[|s| - 1]]
  }

  /** Replacing line breaks neither creates nor removes non-whitespace. */
  lemma ReplaceNewlinesAllSpace(s: string)
    ensures AllSpace(ReplaceNewlines(s)) <==> AllSpace(s)
  {
  }

  /** The sum of the lengths of the parts. */
  function TotalLength(parts: seq<string>): nat {
    if parts == [] then 0 else TotalLength(parts[..|parts| - 1]) + |parts[|parts| - 1]|
  }

  /** Where part `i` begins in the joined string: every earlier part plus one separator each. */
  function Offset(parts: seq<string>, i: nat): nat
    requires i <= |parts|
  {
    TotalLength(parts[..i]) + i
  }

  /** `" ".join(parts)`. */
  function Join(parts: seq<string>): (r: string)
    ensures |parts| == 0 ==> r == []
    ensures |parts| >= 1 ==> |r| == TotalLength(parts) + |parts| - 1
  {
    if |parts| == 0 then []
    else if |parts| == 1 then parts[0]
    else Join(parts[..|parts| - 1]) + [Separator] + parts[|parts| - 1]
  }

  /** Part `i` sits at its offset in the joined string, right after a separator unless it is first. */
  lemma {:induction false} JoinAt(parts: seq<string>, i: nat)
    requires i < |parts|
    ensures Offset(parts, i) + |parts[i]| <= |Join(parts)|
    ensures Join(parts)[Offset(parts, i)..Offset(parts, i) + |parts[i]|] == parts[i]
    ensures 0 < i ==> Join(parts)[Offset(parts, i) - 1] == Separator
  {
    var n := |parts|;
    if n == 1 {
      assert parts[..0] == [];
    } else {
      var init := parts[..n - 1];
      var prefix := Join(init);
      assert Join(parts) == prefix + [Separator] + parts[n - 1];
      if i == n - 1 {
        assert parts[..i] == init;
        assert Offset(parts, i) == |prefix| + 1;
      } else {
        JoinAt(init, i);
        assert init[..i] == parts[..i];
        assert Offset(init, i) == Offset(parts, i);
      }
    }
  }

  lemma AllSpaceConcat(a: string, b: string)
    ensures AllSpace(a + [Separator] + b) <==> AllSpace(a) && AllSpace(b)
  {
    var s := a + [Separator] + b;
    if AllSpace(a) && AllSpace(b) {
      forall k | 0 <= k < |s| ensures IsSpace(s[k]) {
        if k > |a| { assert s[k] == b[k - |a| - 1]; }
      }
    }
    if AllSpace(s) {
      forall k | 0 <= k < |a| ensures IsSpace(a[k]) {
        assert a[k] == s[k];
      }
      forall k | 0 <= k < |b| ensures IsSpace(b[k]) {
        assert b[k] == s[|a| + 1 + k];
      }
    }
  }

  /** The joined string is blank exactly when every part is. */
  lemma {:induction false} JoinAllSpace(parts: seq<string>)
    ensures AllSpace(Join(parts)) <==> forall i :: 0 <= i < |parts| ==> AllSpace(parts[i])
  {
    var n := |parts|;
    if n > 1 {
      var init := parts[..n - 1];
      JoinAllSpace(init);
      AllSpaceConcat(Join(init), parts[n - 1]);
      assert forall i :: 0 <= i < n - 1 ==> init[i] == parts[i];
    }
  }

  /** Joining with spaces adds no line break. */
  lemma {:induction false} JoinNoNewline(parts: seq<string>)
    requires forall i :: 0 <= i < |parts| ==> '\n' !in parts[i]
    ensures '\n' !in Join(parts)
  {
    var n := |parts|;
    if n > 1 {
      JoinNoNewline(parts[..n - 1]);
    }
  }

  /** Sequences of strings with equal lengths, position by position, have equal total length. */
  lemma {:induction false} TotalLengthSameShape(a: seq<string>, b: seq<string>)
    requires |a| == |b|
    requires forall i :: 0 <= i < |a| ==> |a[i]| == |b[i]|
    ensures TotalLength(a) == TotalLength(b)
  {
    if a != [] {
      TotalLengthSameShape(a[..|a| - 1], b[..|b| - 1]);
    }
  }

  /** The list comprehension of the assembly step: every page with its line breaks replaced. */
  function CleanPages(pages: seq<string>): seq<string> {
    seq(|pages|, i requires 0 <= i < |pages| => ReplaceNewlines(pages[i]))
  }

  /** `" ".join([page.get_text().replace('\n', ' ') for page in doc])`. */
  function AssembleText(pages: seq<string>): (text: string)
    ensures '\n' !in text
    ensures |pages| == 0 ==> text == []
    ensures |pages| >= 1 ==> |text| == TotalLength(pages) + |pages| - 1
  {
    var cleaned := CleanPages(pages);
    JoinNoNewline(cleaned);
    TotalLengthSameShape(cleaned, pages);
    Join(cleaned)
  }

  /** Page `i`, cleaned, appears at its offset in the document text: pages keep their order. */
  lemma AssemblePageAt(pages: seq<string>, i: nat)
    requires i < |pages|
    ensures Offset(pages, i) + |pages[i]| <= |AssembleText(pages)|
    ensures AssembleText(pages)[Offset(pages, i)..Offset(pages, i) + |pages[i]|] == ReplaceNewlines(pages[i])
    ensures 0 < i ==> AssembleText(pages)[Offset(pages, i) - 1] == Separator
  {
    var cleaned := CleanPages(pages);
    JoinAt(cleaned, i);
    TotalLengthSameShape(cleaned[..i], pages[..i]);
  }

  /** The assembled text is blank exactly when no page holds a non-whitespace character. */
  lemma AssembleTextAllSpace(pages: seq<string>)
    ensures AllSpace(AssembleText(pages)) <==> forall i :: 0 <= i < |pages| ==> AllSpace(pages[i])
  {
    var cleaned := CleanPages(pages);
    JoinAllSpace(cleaned);
    forall i | 0 <= i < |pages| ensures AllSpace(cleaned[i]) <==> AllSpace(pages[i]) {
      ReplaceNewlinesAllSpace(pages[i]);
    }
  }

  /** Leading whitespace removed. */
  function TrimStart(s: string): (r: string)
    ensures |r| <= |s| && r == s[|s| - |r|..]
    ensures AllSpace(s[..|s| - |r|])
    ensures r == [] || !IsSpace(r[0])
  {
    if s != [] && IsSpace(s[0]) then
      var r := TrimStart(s[1..]);
      assert s[..|s| - |r|] == [s[0]] + s[1..][..|s| - 1 - |r|];
      r
    else
      s
  }

  /** Trailing whitespace removed. */
  function TrimEnd(s: string): (r: string)
    ensures |r| <= |s| && r == s[..|r|]
    ensures AllSpace(s[|r|..])
    ensures r == [] || !IsSpace(r[|r| - 1])
  {
    if s != [] && IsSpace(s[|s| - 1]) then
      var r := TrimEnd(s[..|s| - 1]);
      assert s[|r|..] == s[..|s| - 1][|r|..] + [s[|s| - 1]];
      r
    else
      s
  }

  /** `s.strip()`: the slice of `s` left once its leading and trailing whitespace are removed. */
  function Strip(s: string): (r: string)
    ensures r == [] <==> AllSpace(s)
    ensures r != [] ==> !IsSpace(r[0]) && !IsSpace(r[|r| - 1])
    ensures exists i, j :: 0 <= i <= j <= |s| && r == s[i..j] && AllSpace(s[..i]) && AllSpace(s[j..])
  {
    var t := TrimStart(s);
    StripFacts(s, t, TrimEnd(t));
    TrimEnd(t)
  }

  /**
   * What trimming both ends leaves: `t` is `s` less a whitespace prefix and
   * `r` is `t` less a whitespace suffix, each starting and ending with
   * non-whitespace unless empty.
   */
  ghost predicate TrimmedFrom(s: string, t: string, r: string) {
    && |t| <= |s| && t == s[|s| - |t|..] && AllSpace(s[..|s| - |t|]) && (t == [] || !IsSpace(t[0]))
    && |r| <= |t| && r == t[..|r|] && AllSpace(t[|r|..]) && (r == [] || !IsSpace(r[|r| - 1]))
  }

  /** Trimming both ends leaves the slice between the leading and trailing whitespace, empty exactly when all is whitespace. */
  lemma StripFacts(s: string, t: string, r: string)
    requires TrimmedFrom(s, t, r)
    ensures r == [] <==> AllSpace(s)
    ensures r != [] ==> !IsSpace(r[0]) && !IsSpace(r[|r| - 1])
    ensures exists i, j :: 0 <= i <= j <= |s| && r == s[i..j] && AllSpace(s[..i]) && AllSpace(s[j..])
  {
    var i := |s| - |t|;
    assert s[i + |r|..] == t[|r|..];
    assert r == s[i..i + |r|];
    assert t[0..] == t;
    assert t == [] ==> s[..i] == s;
    assert t != [] ==> t[0] == s[i];
    assert r != [] ==> r[0] == t[0];
  }

  /** `if text.strip():` the guard in front of detection and synthesis. */
  predicate HasContent(text: string) {
    Strip(text) != []
  }

  /** The guard passes exactly when some page holds a character that is not whitespace. */
  lemma AssembleTextHasContent(pages: seq<string>)
    ensures HasContent(AssembleText(pages)) <==>
      exists i, j :: 0 <= i < |pages| && 0 <= j < |pages[i]| && !IsSpace(pages[i][j])
  {
    AssembleTextAllSpace(pages);
  }

  /** How many leading characters the language detector is given. */
  const SampleLength: nat := 1000

  /** `text[:1000]`: the longest prefix of at most 1000 characters. */
  function Sample(text: string): (r: string)
    ensures |r| <= SampleLength && r <= text
    ensures |r| < SampleLength ==> r == text
  {
    text[..if |text| < SampleLength then |text| else SampleLength]
  }
}
