/** The text helpers of the WhatsApp delivery: phone formatting, message-safe text and short titles. */
module Messages {
  import opened Text
  import opened Sequences

  /** A group id ends in this suffix and is passed through as it is. */
  const GroupSuffix: string := "@g.us"
  /** Brazil's country calling code, put in front of a bare phone number. */
  const CountryCode: string := "55"

  // ---------------------------------------------------------------------------
  // formatPhone
  // ---------------------------------------------------------------------------

  /** `ZApiService.formatPhone`: a group id is returned unchanged; otherwise only the digits are kept
      and `55` is put in front unless they already start with it. */
  function FormatPhone(phone: string): (r: string)
    ensures Contains(phone, GroupSuffix) ==> r == phone
    ensures !Contains(phone, GroupSuffix) ==> AllDigits(r) && StartsWith(r, CountryCode)
    ensures !Contains(phone, GroupSuffix) && StartsWith(Filter(phone, IsDigit), CountryCode) ==>
      r == Filter(phone, IsDigit)
    ensures !Contains(phone, GroupSuffix) && !StartsWith(Filter(phone, IsDigit), CountryCode) ==>
      r == CountryCode + Filter(phone, IsDigit)
  {
    if Contains(phone, GroupSuffix) then phone
    else
      var cleaned := Filter(phone, IsDigit);
      if !StartsWith(cleaned, CountryCode) then CountryCode + cleaned else cleaned
  }

  /** A string of digits never contains the group suffix. */
  lemma DigitsAreNoGroup(s: string)
    requires AllDigits(s)
    ensures !Contains(s, GroupSuffix)
  {
    forall i: nat | i <= |s|
      ensures !OccursAt(s, GroupSuffix, i)
    {
      if i + |GroupSuffix| <= |s| {
        assert s[i..i + |GroupSuffix|][0] == s[i];
      }
    }
  }

  /** Formatting a formatted phone changes nothing. */
  lemma FormatPhoneIdempotent(phone: string)
    ensures FormatPhone(FormatPhone(phone)) == FormatPhone(phone)
  {
    if !Contains(phone, GroupSuffix) {
      var r := FormatPhone(phone);
      DigitsAreNoGroup(r);
      FilterAll(r, IsDigit);
    }
  }

  // ---------------------------------------------------------------------------
  // cleanText
  // ---------------------------------------------------------------------------

  /** The characters `[\x00-\x7F]`. */
  predicate IsAscii(c: char) { c as int < 0x80 }

  predicate AsciiOnly(s: string) { forall i :: 0 <= i < |s| ==> IsAscii(s[i]) }

  /** Every whitespace character is a plain space and no two of them are adjacent. */
  predicate SingleSpaced(s: string) {
    && (forall i :: 0 <= i < |s| && IsWhitespace(s[i]) ==> s[i] == ' ')
    && (forall i :: 0 <= i < |s| - 1 ==> !(IsWhitespace(s[i]) && IsWhitespace(s[i + 1])))
  }

  /** No whitespace at either end. */
  predicate Trimmed(s: string) {
    s != [] ==> !IsWhitespace(s[0]) && !IsWhitespace(s[|s| - 1])
  }

  /** `s.replace(/\s+/g, ' ')`: each run of whitespace becomes one space. */
  function CollapseWhitespace(s: string): (r: string)
    ensures |r| <= |s|
    ensures (r == []) == (s == [])
    ensures r != [] ==> (IsWhitespace(r[0]) <==> IsWhitespace(s[0]))
    ensures SingleSpaced(r)
    ensures forall c :: c in r ==> c in s || c == ' '
    decreases |s|
  {
    if s == [] then []
    else if IsWhitespace(s[0]) then
      var rest := TrimStart(s[1..]);
      assert forall c :: c in rest ==> c in s[1..];
      [' '] + CollapseWhitespace(rest)
    else [s[0]] + CollapseWhitespace(s[1..])
  }

  /** `ProductMessageFormatter.cleanText`: drops every non-ASCII character, collapses whitespace
      runs to one space and trims. */
  function CleanText(text: string): (r: string)
    ensures AsciiOnly(r)
    ensures SingleSpaced(r)
    ensures Trimmed(r)
    ensures Filter(r, NotWhitespace) == Filter(text, IsAsciiWordChar)
  {
    var ascii := Filter(text, IsAscii);
    var t := CollapseWhitespace(ascii);
    TrimmedSlice(t);
    TrimKeepsWords(t);
    CollapseKeepsWords(ascii);
    FilterFilter(text, IsAscii, NotWhitespace, IsAsciiWordChar);
    Trim(t)
  }

  /** The characters `cleanText` keeps apart from spaces: ASCII and not whitespace. */
  predicate IsAsciiWordChar(c: char) { IsAscii(c) && !IsWhitespace(c) }

  /** Trimming removes whitespace only. */
  lemma TrimKeepsWords(t: string)
    ensures Filter(Trim(t), NotWhitespace) == Filter(t, NotWhitespace)
  {
    TrimStartKeepsWords(t);
    TrimEndKeepsWords(TrimStart(t));
  }

  lemma {:induction false} TrimStartKeepsWords(t: string)
    ensures Filter(TrimStart(t), NotWhitespace) == Filter(t, NotWhitespace)
  {
    if t != [] && IsWhitespace(t[0]) {
      TrimStartKeepsWords(t[1..]);
    }
  }

  lemma TrimEndKeepsWords(u: string)
    ensures Filter(TrimEnd(u), NotWhitespace) == Filter(u, NotWhitespace)
  {
    var r := TrimEnd(u);
    assert u == r + u[|r|..];
    FilterNone(u[|r|..], NotWhitespace);
    FilterAppend(r, u[|r|..], NotWhitespace);
  }

  /** Trimming keeps a slice of its input, so every character and every adjacent pair it keeps was
      there before. */
  lemma TrimmedSlice(t: string)
    ensures (forall c :: c in t ==> IsAscii(c)) ==> AsciiOnly(Trim(t))
    ensures SingleSpaced(t) ==> SingleSpaced(Trim(t))
  {
    var s := TrimStart(t);
    var a := |t| - |s|;
    var r := TrimEnd(s);
    forall i | 0 <= i < |r|
      ensures r[i] == t[a + i]
    {
      assert r[i] == s[i];
    }
  }

  /** A string that has no whitespace at its start is its own `trimStart`. */
  lemma TrimStartFixed(s: string)
    requires s == [] || !IsWhitespace(s[0])
    ensures TrimStart(s) == s
  {
  }

  /** Collapsing a single-spaced string changes nothing. */
  lemma {:induction false} CollapseFixed(s: string)
    requires SingleSpaced(s)
    ensures CollapseWhitespace(s) == s
    decreases |s|
  {
    if s != [] {
      assert SingleSpaced(s[1..]);
      CollapseFixed(s[1..]);
      if IsWhitespace(s[0]) {
        assert s[0] == ' ';
        TrimStartFixed(s[1..]);
        assert CollapseWhitespace(s) == [' '] + CollapseWhitespace(s[1..]);
      } else {
        assert CollapseWhitespace(s) == [s[0]] + CollapseWhitespace(s[1..]);
      }
      assert s == [s[0]] + s[1..];
    }
  }

  /** One pass over `s` that remembers whether the previous character was whitespace: a whitespace
      character becomes a space when it starts a run and is dropped otherwise; every other
      character is copied. */
  function Squeezed(s: string, afterWhitespace: bool): string {
    if s == [] then []
    else if IsWhitespace(s[0]) then (if afterWhitespace then [] else [' ']) + Squeezed(s[1..], true)
    else [s[0]] + Squeezed(s[1..], false)
  }

  /** Inside a run the pass emits nothing until the run ends. */
  lemma {:induction false} SqueezedSkipsRun(s: string)
    ensures Squeezed(s, true) == Squeezed(TrimStart(s), true)
  {
    if s != [] && IsWhitespace(s[0]) {
      SqueezedSkipsRun(s[1..]);
      assert [] + Squeezed(s[1..], true) == Squeezed(s[1..], true);
    }
  }

  /** `replace(/\s+/g, ' ')` is the one-pass squeeze: each whitespace run becomes one space and
      every other character stays in place. */
  lemma {:induction false} CollapseIsSqueezed(s: string)
    ensures CollapseWhitespace(s) == Squeezed(s, false)
    decreases |s|
  {
    if s != [] {
      if IsWhitespace(s[0]) {
        var ts := TrimStart(s[1..]);
        CollapseIsSqueezed(ts);
        assert Squeezed(ts, true) == Squeezed(ts, false);
        SqueezedSkipsRun(s[1..]);
      } else {
        CollapseIsSqueezed(s[1..]);
      }
    }
  }

  /** Collapsing keeps the non-whitespace characters, in order and as often as they occur. */
  lemma {:induction false} CollapseKeepsWords(s: string)
    ensures Filter(CollapseWhitespace(s), NotWhitespace) == Filter(s, NotWhitespace)
    decreases |s|
  {
    if s != [] {
      var r := CollapseWhitespace(s);
      if IsWhitespace(s[0]) {
        var ts := TrimStart(s[1..]);
        CollapseKeepsWords(ts);
        TrimStartKeepsWords(s[1..]);
        assert r[0] == ' ' && r[1..] == CollapseWhitespace(ts);
      } else {
        CollapseKeepsWords(s[1..]);
        assert r[0] == s[0] && r[1..] == CollapseWhitespace(s[1..]);
      }
    }
  }

  /** `cleanText` as one pass: the ASCII characters, squeezed, then trimmed. */
  lemma CleanTextIsSqueezed(text: string)
    ensures CleanText(text) == Trim(Squeezed(Filter(text, IsAscii), false))
  {
    CollapseIsSqueezed(Filter(text, IsAscii));
  }

  /** Cleaning a cleaned text changes nothing. */
  lemma CleanTextIdempotent(text: string)
    ensures CleanText(CleanText(text)) == CleanText(text)
  {
    var t := CleanText(text);
    FilterAll(t, IsAscii);
    CollapseFixed(t);
    TrimStartFixed(t);
    assert TrimEnd(t) == t;
  }

  // ---------------------------------------------------------------------------
  // summarizeTitle
  // ---------------------------------------------------------------------------

  /** The summary is cut to this many characters. */
  const TitleMax: nat := 70
  /** A cut at the last space is made only past this position. */
  const MinCut: nat := 40

  /** `s.split(' ')`: the pieces between single spaces, empty ones included. */
  function Split(s: string): (r: seq<string>)
    ensures |r| >= 1
    ensures forall k :: 0 <= k < |r| ==> ' ' !in r[k]
  {
    if s == [] then [""]
    else if s[0] == ' ' then [""] + Split(s[1..])
    else
      var t := Split(s[1..]);
      [[s[0]] + t[0]] + t[1..]
  }

  /** `words.join(' ')`. */
  function Join(words: seq<string>): string {
    if words == [] then ""
    else if |words| == 1 then words[0]
    else words[0] + " " + Join(words[1..])
  }

  /** Joining the pieces of a split gives the string back. */
  lemma {:induction false} JoinSplit(s: string)
    ensures Join(Split(s)) == s
  {
    if s != [] {
      JoinSplit(s[1..]);
      var t := Split(s[1..]);
      if s[0] == ' ' {
        assert Split(s)[1..] == t;
      } else {
        if |t| > 1 {
          assert Join(t) == t[0] + " " + Join(t[1..]);
          assert Split(s)[1..] == t[1..];
        }
      }
    }
  }

  /** The loop of `summarizeTitle` from a given `lastWord`: a word is kept when it differs, ignoring
      case, from the last word kept. */
  function Dedup(words: seq<string>, last: string): (r: seq<string>)
    ensures |r| <= |words|
  {
    if words == [] then []
    else if ToLower(words[0]) != ToLower(last) then [words[0]] + Dedup(words[1..], words[0])
    else Dedup(words[1..], last)
  }

  /** The first word of every run of words equal ignoring case, a run starting wherever a word
      differs from the word just before it (or, for the first word, from `prev`). */
  function RunHeads(words: seq<string>, prev: string): seq<string> {
    if words == [] then []
    else (if ToLower(words[0]) != ToLower(prev) then [words[0]] else []) + RunHeads(words[1..], words[0])
  }

  /** Only the lower-cased last word matters to the loop. */
  lemma {:induction false} DedupSameLower(words: seq<string>, a: string, b: string)
    requires ToLower(a) == ToLower(b)
    ensures Dedup(words, a) == Dedup(words, b)
  {
    if words != [] && ToLower(words[0]) == ToLower(a) {
      DedupSameLower(words[1..], a, b);
    }
  }

  /** The loop keeps exactly the first word of each run of case-insensitively equal words: a
      skipped word always equals the word just before it. */
  lemma {:induction false} DedupIsRunHeads(words: seq<string>, last: string)
    ensures Dedup(words, last) == RunHeads(words, last)
  {
    if words != [] {
      DedupIsRunHeads(words[1..], words[0]);
      if ToLower(words[0]) == ToLower(last) {
        DedupSameLower(words[1..], last, words[0]);
      }
    }
  }

  /** No two adjacent kept words are equal ignoring case, and the first differs from `last`. */
  lemma {:induction false} DedupNoRepeats(words: seq<string>, last: string)
    ensures var r := Dedup(words, last);
      && (r != [] ==> ToLower(r[0]) != ToLower(last))
      && forall i :: 0 <= i < |r| - 1 ==> ToLower(r[i]) != ToLower(r[i + 1])
  {
    if words != [] {
      if ToLower(words[0]) != ToLower(last) {
        DedupNoRepeats(words[1..], words[0]);
        var rest := Dedup(words[1..], words[0]);
        var r := [words[0]] + rest;
        forall i | 0 <= i < |r| - 1
          ensures ToLower(r[i]) != ToLower(r[i + 1])
        {
          if i > 0 {
            assert r[i] == rest[i - 1] && r[i + 1] == rest[i];
          }
        }
      } else {
        DedupNoRepeats(words[1..], last);
      }
    }
  }

  /** `s.lastIndexOf(c)`: -1 when `c` does not occur. */
  function LastIndexOf(s: string, c: char): (r: int)
    ensures -1 <= r < |s|
    ensures 0 <= r ==> s[r] == c
    ensures forall i :: r < i < |s| ==> s[i] != c
  {
    if s == [] then -1
    else if s[|s| - 1] == c then |s| - 1
    else LastIndexOf(s[..|s| - 1], c)
  }

  /** The end of `summarizeTitle`: a text over 70 characters is cut to 70, then back to its last
      space when that space lies past position 40; the result is trimmed. */
  function Shorten(s: string): (r: string)
    ensures |r| <= TitleMax
    ensures |s| <= TitleMax ==> r == Trim(s)
    ensures TitleMax < |s| && (forall i :: MinCut < i < TitleMax ==> s[i] != ' ') ==> r == Trim(s[..TitleMax])
    ensures forall n :: (TitleMax < |s| && MinCut < n < TitleMax && s[n] == ' '
      && (forall i :: n < i < TitleMax ==> s[i] != ' ')) ==> r == Trim(s[..n])
  {
    if |s| <= TitleMax then Trim(s)
    else
      var cut := s[..TitleMax];
      var lastSpace := LastIndexOf(cut, ' ');
      if lastSpace > MinCut as int then
        assert cut[..lastSpace] == s[..lastSpace];
        assert forall n :: (MinCut < n < TitleMax && s[n] == ' ' && (forall i :: n < i < TitleMax ==> s[i] != ' ')
          ==> n == lastSpace) by {
          forall n | MinCut < n < TitleMax && s[n] == ' ' && (forall i :: n < i < TitleMax ==> s[i] != ' ')
            ensures n == lastSpace
          {
            assert cut[n] == ' ' && s[lastSpace] == cut[lastSpace];
          }
        }
        Trim(cut[..lastSpace])
      else
        assert forall n :: MinCut < n < TitleMax ==> s[n] != ' ' by {
          forall n | MinCut < n < TitleMax
            ensures s[n] != ' '
          {
            assert s[n] == cut[n];
          }
        }
        Trim(cut)
  }

  /** `ProductMessageFormatter.summarizeTitle`: splits on spaces, drops each word equal (ignoring
      case) to the last word kept, joins with spaces, removes the redundant patterns (`strip`) and
      shortens. */
  method SummarizeTitle(title: string, strip: string -> string) returns (summary: string)
    ensures summary == Shorten(strip(Join(Dedup(Split(title), ""))))
    ensures |summary| <= TitleMax
  {
    var words := Split(title);
    var uniqueWords: seq<string> := [];
    var lastWord := "";
    var i := 0;
    while i < |words|
      invariant 0 <= i <= |words|
      invariant uniqueWords + Dedup(words[i..], lastWord) == Dedup(words, "")
    {
      var word := words[i];
      assert words[i..][0] == word && words[i..][1..] == words[i + 1..];
      if ToLower(word) != ToLower(lastWord) {
        uniqueWords := uniqueWords + [word];
        lastWord := word;
      }
      i := i + 1;
    }
    assert words[i..] == [];
    assert uniqueWords == Dedup(words, "");
    var joined := strip(Join(uniqueWords));
    var result := joined;
    if |result| > TitleMax {
      result := result[..TitleMax];
      var lastSpace := LastIndexOf(result, ' ');
      if lastSpace > MinCut as int {
        result := result[..lastSpace];
      }
    }
    summary := Trim(result);
    assert summary == Shorten(joined);
  }
}
