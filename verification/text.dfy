/** Character-level helpers of Rust's `str` that the crate relies on:
    `split_whitespace`, `contains`, `split('/').last()`, and the decimal
    rendering used by standard error messages. Strings are sequences of
    Unicode scalar values; a NUL byte is the character '\0'. */
module Text {
  import opened Base

  /** Rust `char::is_whitespace`: the Unicode White_Space property. */
  predicate IsWhitespace(c: char) {
    var n := c as int;
    (0x09 <= n <= 0x0D) || n == 0x20 || n == 0x85 || n == 0xA0 || n == 0x1680
    || (0x2000 <= n <= 0x200A) || n == 0x2028 || n == 0x2029 || n == 0x202F
    || n == 0x205F || n == 0x3000
  }

  /** A token `split_whitespace` can yield: non-empty, without whitespace. */
  predicate IsWord(w: string) {
    |w| > 0 && forall i :: 0 <= i < |w| ==> !IsWhitespace(w[i])
  }

  /** Length of the longest whitespace-free prefix of `s`. */
  function WordLen(s: string): (n: nat)
    ensures n <= |s|
    ensures forall i :: 0 <= i < n ==> !IsWhitespace(s[i])
    ensures n < |s| ==> IsWhitespace(s[n])
  {
    if |s| == 0 || IsWhitespace(s[0]) then 0 else 1 + WordLen(s[1..])
  }

  /** Rust `str::split_whitespace`, collected: the maximal runs of
      non-whitespace characters of `s`, in order. */
  function Words(s: string): (r: seq<string>)
    ensures forall i :: 0 <= i < |r| ==> IsWord(r[i])
    decreases |s|
  {
    if |s| == 0 then []
    else if IsWhitespace(s[0]) then Words(s[1..])
    else
      var n := WordLen(s);
      [s[..n]] + Words(s[n..])
  }

  /** `s` with every whitespace character removed. */
  function RemoveWhitespace(s: string): string {
    if |s| == 0 then []
    else if IsWhitespace(s[0]) then RemoveWhitespace(s[1..])
    else [s[0]] + RemoveWhitespace(s[1..])
  }

  function Flatten(ts: seq<string>): string {
    if |ts| == 0 then [] else ts[0] + Flatten(ts[1..])
  }

  /** The tokens joined by single spaces. */
  function JoinSpaces(ts: seq<string>): string {
    if |ts| == 0 then []
    else if |ts| == 1 then ts[0]
    else ts[0] + " " + JoinSpaces(ts[1..])
  }

  lemma {:induction false} RemoveWhitespaceAppend(a: string, b: string)
    ensures RemoveWhitespace(a + b) == RemoveWhitespace(a) + RemoveWhitespace(b)
    decreases |a|
  {
    if |a| == 0 {
      assert a + b == b;
    } else {
      assert (a + b)[1..] == a[1..] + b;
      RemoveWhitespaceAppend(a[1..], b);
    }
  }

  lemma {:induction false} RemoveWhitespaceOfWord(w: string)
    requires forall i :: 0 <= i < |w| ==> !IsWhitespace(w[i])
    ensures RemoveWhitespace(w) == w
    decreases |w|
  {
    if |w| > 0 {
      RemoveWhitespaceOfWord(w[1..]);
    }
  }

  /** The tokens, concatenated, are exactly the non-whitespace characters
      of the input in their original order: nothing is lost, reordered or
      invented by tokenisation. */
  lemma {:induction false} WordsKeepEveryCharacter(s: string)
    ensures Flatten(Words(s)) == RemoveWhitespace(s)
    decreases |s|
  {
    if |s| == 0 {
    } else if IsWhitespace(s[0]) {
      WordsKeepEveryCharacter(s[1..]);
    } else {
      var n := WordLen(s);
      assert s == s[..n] + s[n..];
      RemoveWhitespaceAppend(s[..n], s[n..]);
      RemoveWhitespaceOfWord(s[..n]);
      WordsKeepEveryCharacter(s[n..]);
      assert Words(s) == [s[..n]] + Words(s[n..]);
      assert Flatten(Words(s)) == s[..n] + Flatten(Words(s[n..]));
    }
  }

  /** A character absent from `s` is absent from every token of `s`. */
  lemma {:induction false} WordsAvoid(s: string, c: char)
    requires c !in s
    ensures forall k :: 0 <= k < |Words(s)| ==> c !in Words(s)[k]
    decreases |s|
  {
    if |s| == 0 {
    } else if IsWhitespace(s[0]) {
      assert s == [s[0]] + s[1..];
      WordsAvoid(s[1..], c);
    } else {
      var n := WordLen(s);
      assert s == s[..n] + s[n..];
      WordsAvoid(s[n..], c);
      assert Words(s) == [s[..n]] + Words(s[n..]);
    }
  }

  /** A character absent from every token and other than ' ' is absent
      from the tokens joined by spaces. */
  lemma {:induction false} JoinSpacesAvoid(ts: seq<string>, c: char)
    requires c != ' '
    requires forall i :: 0 <= i < |ts| ==> c !in ts[i]
    ensures c !in JoinSpaces(ts)
    decreases |ts|
  {
    if |ts| > 1 {
      JoinSpacesAvoid(ts[1..], c);
    }
  }

  /** An argument string made only of whitespace has no tokens. */
  lemma {:induction false} WordsOfBlank(s: string)
    requires forall i :: 0 <= i < |s| ==> IsWhitespace(s[i])
    ensures Words(s) == []
    decreases |s|
  {
    if |s| > 0 {
      WordsOfBlank(s[1..]);
    }
  }

  lemma {:induction false} WordLenOfWordThen(w: string, t: string)
    requires IsWord(w)
    requires |t| == 0 || IsWhitespace(t[0])
    ensures WordLen(w + t) == |w|
    decreases |w|
  {
    if |w| == 1 {
      assert (w + t)[1..] == t;
    } else {
      assert (w + t)[1..] == w[1..] + t;
      WordLenOfWordThen(w[1..], t);
    }
  }

  /** A word followed by whitespace ends where the whitespace starts. */
  lemma {:induction false} WordLenBeforeWhitespace(a: string, t: string)
    requires |t| > 0 && IsWhitespace(t[0])
    ensures WordLen(a + t) == WordLen(a)
    decreases |a|
  {
    if |a| > 0 && !IsWhitespace(a[0]) {
      assert (a + t)[1..] == a[1..] + t;
      WordLenBeforeWhitespace(a[1..], t);
    } else if |a| == 0 {
      assert a + t == t;
    }
  }

  /** Any whitespace character separates tokens: the tokens of `a`, one
      whitespace character, and `b` are the tokens of `a` followed by
      those of `b`. */
  lemma {:induction false} WordsSplit(a: string, c: char, b: string)
    requires IsWhitespace(c)
    ensures Words(a + [c] + b) == Words(a) + Words(b)
    decreases |a|
  {
    var s := a + [c] + b;
    if |a| == 0 {
      assert s == [c] + b;
      assert s[1..] == b;
    } else if IsWhitespace(a[0]) {
      assert s[1..] == a[1..] + [c] + b;
      WordsSplit(a[1..], c, b);
    } else {
      var m := WordLen(a);
      assert s == a + ([c] + b);
      WordLenBeforeWhitespace(a, [c] + b);
      assert s[..m] == a[..m];
      assert s[m..] == a[m..] + [c] + b;
      WordsSplit(a[m..], c, b);
    }
  }

  /** A single token is split into itself. */
  lemma WordsOfWord(w: string)
    requires IsWord(w)
    ensures Words(w) == [w]
  {
    WordLenOfWordThen(w, []);
    assert w + [] == w;
    assert w[..|w|] == w;
    assert w[|w|..] == [];
  }

  /** Tokenisation inverts joining with single spaces: splitting the
      space-joined tokens gives back the same tokens. */
  lemma {:induction false} WordsOfJoin(ts: seq<string>)
    requires forall i :: 0 <= i < |ts| ==> IsWord(ts[i])
    ensures Words(JoinSpaces(ts)) == ts
    decreases |ts|
  {
    if |ts| == 0 {
    } else if |ts| == 1 {
      var w := ts[0];
      WordLenOfWordThen(w, []);
      assert w + [] == w;
      assert w[|w|..] == [];
      assert w[..|w|] == w;
    } else {
      var w := ts[0];
      var rest := JoinSpaces(ts[1..]);
      var s := w + " " + rest;
      assert s == w + (" " + rest);
      WordLenOfWordThen(w, " " + rest);
      assert s[..|w|] == w;
      assert s[|w|..] == " " + rest;
      assert (" " + rest)[1..] == rest;
      WordsOfJoin(ts[1..]);
      assert Words(" " + rest) == Words(rest);
    }
  }

  predicate StartsWith(s: string, p: string) {
    |p| <= |s| && s[..|p|] == p
  }

  /** `needle` occurs in `hay` starting at offset `i`. */
  predicate OccursAt(hay: string, needle: string, i: int) {
    0 <= i && i + |needle| <= |hay| && hay[i..i + |needle|] == needle
  }

  /** Rust `str::contains` with a string pattern: `needle` occurs in `hay`
      at some offset (the empty needle occurs everywhere). */
  function Contains(hay: string, needle: string): (r: bool)
    ensures r <==> exists i :: OccursAt(hay, needle, i)
    decreases |hay|
  {
    if StartsWith(hay, needle) then
      assert OccursAt(hay, needle, 0);
      true
    else if |hay| == 0 then false
    else
      var r := Contains(hay[1..], needle);
      forall i
        ensures OccursAt(hay[1..], needle, i) <==> OccursAt(hay, needle, i + 1)
      {
        if 0 <= i && i + |needle| <= |hay| - 1 {
          assert hay[1..][i..i + |needle|] == hay[i + 1..i + 1 + |needle|];
        }
      }
      assert !OccursAt(hay, needle, 0);
      assert (exists i :: OccursAt(hay, needle, i)) ==> exists i :: OccursAt(hay[1..], needle, i) by {
        if exists i :: OccursAt(hay, needle, i) {
          var i :| OccursAt(hay, needle, i);
          assert OccursAt(hay[1..], needle, i - 1);
        }
      }
      r
  }

  /** Rust `s.split('/').last().unwrap_or("")`: the text after the last
      '/', or the whole string when it holds none. Stated as the longest
      '/'-free suffix of `s`. */
  function LastSegment(s: string): (r: string)
    ensures '/' !in r
    ensures |r| <= |s| && r == s[|s| - |r|..]
    ensures |r| < |s| ==> s[|s| - |r| - 1] == '/'
    decreases |s|
  {
    if |s| == 0 then []
    else if s[|s| - 1] == '/' then []
    else
      var init := s[..|s| - 1];
      var t := LastSegment(init);
      assert s == init + [s[|s| - 1]];
      assert s[|s| - |t| - 1..] == init[|init| - |t|..] + [s[|s| - 1]];
      t + [s[|s| - 1]]
  }

  /** A path whose directory part ends in '/' yields its file name. */
  lemma {:induction false} LastSegmentOfPath(dir: string, name: string)
    requires '/' !in name
    ensures LastSegment(dir + "/" + name) == name
    decreases |name|
  {
    var s := dir + "/" + name;
    if |name| == 0 {
      assert s[|s| - 1] == '/';
    } else {
      var last := name[|name| - 1];
      assert s[|s| - 1] == last;
      assert s[..|s| - 1] == dir + "/" + name[..|name| - 1];
      LastSegmentOfPath(dir, name[..|name| - 1]);
      assert name == name[..|name| - 1] + [last];
    }
  }

  /** The position of the first occurrence of `c` in `s`, if any. */
  function IndexOf(s: string, c: char): (r: Option<nat>)
    ensures r.None? <==> c !in s
    ensures r.Some? ==> r.value < |s| && s[r.value] == c
    ensures r.Some? ==> forall j :: 0 <= j < r.value ==> s[j] != c
    decreases |s|
  {
    if |s| == 0 then None
    else if s[0] == c then Some(0)
    else
      match IndexOf(s[1..], c)
      case None => None
      case Some(i) => Some(i + 1)
  }

  function DigitChar(d: nat): (c: char)
    requires d < 10
  {
    ('0' as int + d) as char
  }

  /** Decimal rendering of a natural number, as Rust's `{}` prints it. */
  function Decimal(n: nat): (r: string)
    ensures |r| >= 1
    ensures forall i :: 0 <= i < |r| ==> '0' <= r[i] <= '9'
    ensures n > 0 ==> r[0] != '0'
  {
    if n < 10 then [DigitChar(n)] else Decimal(n / 10) + [DigitChar(n % 10)]
  }

  /** The number a string of decimal digits denotes. */
  function DecimalValue(s: string): nat
    requires forall i :: 0 <= i < |s| ==> '0' <= s[i] <= '9'
  {
    if |s| == 0 then 0
    else DecimalValue(s[..|s| - 1]) * 10 + (s[|s| - 1] as int - '0' as int)
  }

  /** Reading back the decimal rendering gives the number rendered. */
  lemma {:induction false} DecimalRoundTrip(n: nat)
    ensures DecimalValue(Decimal(n)) == n
  {
    if n >= 10 {
      var r := Decimal(n);
      assert r[..|r| - 1] == Decimal(n / 10);
      DecimalRoundTrip(n / 10);
    }
  }
}
