/**
 * The parts of Rust's core library that the NQL decoders lean on, written on
 * `seq<char>`: `Option`, and the `str` operations `find`, `contains`,
 * `starts_with`, `ends_with`, `splitn`, `split`, `replace`, `replacen`,
 * `trim_start`, `trim`, `trim_end_matches`, `split_whitespace`, collecting
 * pieces into a `String` and `intersperse`, and `usize::to_string`.
 * Patterns are literal strings, never regular expressions.
 */
module Rust {

  datatype Option<+T> = None | Some(value: T)

  /** `char::is_whitespace`: the Unicode White_Space property. */
  predicate IsWhitespace(c: char)
  {
    || ('\t' <= c <= '\r')
    || c == ' '
    || c == '\U{85}'
    || c == '\U{A0}'
    || c == '\U{1680}'
    || ('\U{2000}' <= c <= '\U{200A}')
    || c == '\U{2028}'
    || c == '\U{2029}'
    || c == '\U{202F}'
    || c == '\U{205F}'
    || c == '\U{3000}'
  }

  /** A non-empty run of characters none of which is whitespace. */
  predicate IsWord(t: string)
  {
    |t| > 0 && forall j :: 0 <= j < |t| ==> !IsWhitespace(t[j])
  }

  predicate StartsWith(s: string, p: string)
  {
    |p| <= |s| && s[..|p|] == p
  }

  predicate EndsWith(s: string, p: string)
  {
    |p| <= |s| && s[|s| - |p|..] == p
  }

  /** `pat` occurs in `s` starting at position `i`. */
  predicate MatchAt(s: string, pat: string, i: nat)
  {
    i + |pat| <= |s| && s[i..i + |pat|] == pat
  }

  /** The first position at or after `from` where `pat` occurs. */
  function FindFrom(s: string, pat: string, from: nat): (r: Option<nat>)
    ensures r.Some? ==> from <= r.value && MatchAt(s, pat, r.value)
    decreases |s| - from
  {
    if from + |pat| > |s| then None
    else if s[from..from + |pat|] == pat then Some(from)
    else FindFrom(s, pat, from + 1)
  }

  /** `FindFrom` finds the first occurrence, and finds none only when there is none. */
  lemma {:induction false} FindFromFirst(s: string, pat: string, from: nat)
    ensures var r := FindFrom(s, pat, from);
      && (r.Some? ==> forall j :: from <= j < r.value ==> !MatchAt(s, pat, j))
      && (r.None? ==> forall j :: from <= j ==> !MatchAt(s, pat, j))
    decreases |s| - from
  {
    if from + |pat| <= |s| && s[from..from + |pat|] != pat {
      FindFromFirst(s, pat, from + 1);
    }
  }

  /** `str::find` with a string pattern. */
  function Find(s: string, pat: string): Option<nat>
  {
    FindFrom(s, pat, 0)
  }

  /** `str::contains` with a string pattern. */
  predicate Contains(s: string, pat: string)
  {
    Find(s, pat).Some?
  }

  lemma ContainsIff(s: string, pat: string)
    ensures Contains(s, pat) <==> exists j :: MatchAt(s, pat, j)
  {
    FindFromFirst(s, pat, 0);
    if !Contains(s, pat) {
      forall j ensures !MatchAt(s, pat, j) {
        assert 0 <= j;
      }
    }
  }

  lemma MatchAtChar(s: string, c: char, j: nat)
    ensures MatchAt(s, [c], j) <==> j < |s| && s[j] == c
  {
    if j < |s| {
      assert s[j..j + 1] == [s[j]];
    }
  }

  /** For a one-character pattern, `find` returns the first occurrence. */
  lemma FindChar(s: string, c: char)
    ensures Find(s, [c]).Some? <==> c in s
    ensures Find(s, [c]).Some? ==> Find(s, [c]).value < |s| && s[Find(s, [c]).value] == c
    ensures Find(s, [c]).Some? ==> c !in s[..Find(s, [c]).value]
  {
    FindFromFirst(s, [c], 0);
    var r := Find(s, [c]);
    if r.Some? {
      MatchAtChar(s, c, r.value);
      forall j | 0 <= j < r.value ensures s[j] != c {
        MatchAtChar(s, c, j);
      }
    } else {
      forall j | 0 <= j < |s| ensures s[j] != c {
        MatchAtChar(s, c, j);
      }
    }
  }

  lemma ContainsChar(s: string, c: char)
    ensures Contains(s, [c]) <==> c in s
  {
    FindChar(s, c);
  }

  /** Concatenation of pieces: `collect::<String>()` over `&str` items. */
  function Concat(xs: seq<string>): string
  {
    if xs == [] then "" else xs[0] + Concat(xs[1..])
  }

  lemma ConcatAtMostOne(xs: seq<string>)
    requires |xs| <= 1
    ensures Concat(xs) == if xs == [] then "" else xs[0]
  {
    if xs != [] {
      assert xs[1..] == [];
    }
  }

  /** Concatenation of a sequence of sequences, the last one appended last. */
  function Flatten<T>(xss: seq<seq<T>>): seq<T>
  {
    if xss == [] then [] else Flatten(xss[..|xss| - 1]) + xss[|xss| - 1]
  }

  /** `intersperse(sep)` followed by `collect::<String>()`. */
  function Join(xs: seq<string>, sep: string): string
  {
    if xs == [] then ""
    else if |xs| == 1 then xs[0]
    else xs[0] + sep + Join(xs[1..], sep)
  }

  /** `s.splitn(n, pat)`: at most `n` pieces, the last one holding the rest. */
  function SplitN(s: string, pat: string, n: nat): (r: seq<string>)
    requires |pat| > 0
    ensures |r| <= n && (n > 0 ==> |r| >= 1)
    decreases n
  {
    if n == 0 then []
    else if n == 1 then [s]
    else match Find(s, pat)
      case None => [s]
      case Some(i) => [s[..i]] + SplitN(s[i + |pat|..], pat, n - 1)
  }

  /** `s.split(pat)` for a literal, non-empty pattern. */
  function Split(s: string, pat: string): (r: seq<string>)
    requires |pat| > 0
    ensures |r| >= 1
    decreases |s|
  {
    match Find(s, pat)
    case None => [s]
    case Some(i) => [s[..i]] + Split(s[i + |pat|..], pat)
  }

  /** `s.replace(c, to)` for a one-character pattern `c`. */
  function Replace(s: string, c: char, to: string): string
  {
    if s == [] then ""
    else (if s[0] == c then to else [s[0]]) + Replace(s[1..], c, to)
  }

  /** `s.replacen(pat, to, 1)`: only the first occurrence is replaced. */
  function ReplaceFirst(s: string, pat: string, to: string): string
  {
    match Find(s, pat)
    case None => s
    case Some(i) => s[..i] + to + s[i + |pat|..]
  }

  /** `str::trim_start`. */
  function TrimStart(s: string): (r: string)
    ensures |r| <= |s|
    ensures r == [] || !IsWhitespace(r[0])
  {
    if s != [] && IsWhitespace(s[0]) then TrimStart(s[1..]) else s
  }

  /** What `trim_start` keeps is a suffix of its input. */
  lemma {:induction false} TrimStartSuffix(s: string)
    ensures TrimStart(s) == s[|s| - |TrimStart(s)|..]
  {
    if s != [] && IsWhitespace(s[0]) {
      TrimStartSuffix(s[1..]);
    }
  }

  /** `str::trim_end`. */
  function TrimEnd(s: string): (r: string)
    ensures |r| <= |s|
    ensures r == [] || !IsWhitespace(r[|r| - 1])
  {
    if s != [] && IsWhitespace(s[|s| - 1]) then TrimEnd(s[..|s| - 1]) else s
  }

  /** `str::trim`. */
  function Trim(s: string): string
  {
    TrimEnd(TrimStart(s))
  }

  /** `s.trim_end_matches(c)` for a one-character pattern. */
  function TrimEndMatches(s: string, c: char): (r: string)
    ensures |r| <= |s| && r == s[..|r|]
    ensures r == [] || r[|r| - 1] != c
    ensures forall j :: |r| <= j < |s| ==> s[j] == c
  {
    if s != [] && s[|s| - 1] == c then TrimEndMatches(s[..|s| - 1], c) else s
  }

  /** The longest prefix of `s` that holds no whitespace. */
  function Token(s: string): (t: string)
    ensures |t| <= |s| && t == s[..|t|]
    ensures forall j :: 0 <= j < |t| ==> !IsWhitespace(t[j])
    ensures |t| < |s| ==> IsWhitespace(s[|t|])
  {
    if s == [] || IsWhitespace(s[0]) then [] else [s[0]] + Token(s[1..])
  }

  /** `str::split_whitespace`: the maximal whitespace-free runs, in order. */
  function SplitWhitespace(s: string): (r: seq<string>)
    ensures forall i :: 0 <= i < |r| ==> IsWord(r[i])
    decreases |s|
  {
    if s == [] then []
    else if IsWhitespace(s[0]) then SplitWhitespace(s[1..])
    else
      var t := Token(s);
      [t] + SplitWhitespace(s[|t|..])
  }

  /** `str::parse::<bool>`: exactly "true" or "false". */
  function ParseBool(s: string): (r: Option<bool>)
  {
    if s == "true" then Some(true)
    else if s == "false" then Some(false)
    else None
  }

  /** `usize::to_string`: decimal digits without sign or leading zeros. */
  function DecimalString(n: nat): (r: string)
    ensures |r| >= 1 && forall j :: 0 <= j < |r| ==> '0' <= r[j] <= '9'
  {
    var d := ['0' + (n % 10) as char];
    if n < 10 then d else DecimalString(n / 10) + d
  }

  // ----- facts about the operations above -----

  lemma {:induction false} ReplaceAppend(a: string, b: string, c: char, to: string)
    ensures Replace(a + b, c, to) == Replace(a, c, to) + Replace(b, c, to)
  {
    if a != [] {
      assert (a + b)[0] == a[0] && (a + b)[1..] == a[1..] + b;
      ReplaceAppend(a[1..], b, c, to);
      calc {
        Replace(a + b, c, to);
        (if a[0] == c then to else [a[0]]) + Replace(a[1..] + b, c, to);
        (if a[0] == c then to else [a[0]]) + Replace(a[1..], c, to) + Replace(b, c, to);
      }
    } else {
      assert a + b == b;
    }
  }

  lemma ReplaceAbsent(s: string, c: char, to: string)
    requires c !in s
    ensures Replace(s, c, to) == s
  {
    if s != [] {
      ReplaceAbsent(s[1..], c, to);
    }
  }

  /** Replacing a character by nothing removes exactly that character. */
  lemma ReplaceRemoves(s: string, c: char)
    ensures forall x :: x in Replace(s, c, "") <==> x in s && x != c
  {
    if s != [] {
      ReplaceRemoves(s[1..], c);
      assert s == [s[0]] + s[1..];
    }
  }

  lemma TokenWord(t: string)
    requires forall j :: 0 <= j < |t| ==> !IsWhitespace(t[j])
    ensures Token(t) == t
  {
    if t != [] {
      TokenWord(t[1..]);
    }
  }

  lemma TokenStopsAtWhitespace(a: string, w: char, b: string)
    requires IsWhitespace(w)
    ensures Token(a + [w] + b) == Token(a)
  {
    if a != [] && !IsWhitespace(a[0]) {
      assert (a + [w] + b)[1..] == a[1..] + [w] + b;
      TokenStopsAtWhitespace(a[1..], w, b);
    }
  }

  /** A whitespace character between two texts keeps their words apart. */
  lemma {:induction false} SplitWhitespaceAppend(a: string, w: char, b: string)
    requires IsWhitespace(w)
    ensures SplitWhitespace(a + [w] + b) == SplitWhitespace(a) + SplitWhitespace(b)
    decreases |a|
  {
    var s := a + [w] + b;
    if a == [] {
      assert s[1..] == b;
    } else if IsWhitespace(a[0]) {
      assert s[1..] == a[1..] + [w] + b;
      SplitWhitespaceAppend(a[1..], w, b);
    } else {
      TokenStopsAtWhitespace(a, w, b);
      var t := Token(a);
      assert s[|t|..] == a[|t|..] + [w] + b;
      SplitWhitespaceAppend(a[|t|..], w, b);
    }
  }

  lemma SplitWhitespaceWord(t: string)
    requires IsWord(t)
    ensures SplitWhitespace(t) == [t]
  {
    TokenWord(t);
    assert t[|t|..] == [];
  }

  /** Words joined by single spaces split back into the same words. */
  lemma {:induction false} SplitWhitespaceJoin(ts: seq<string>)
    requires forall i :: 0 <= i < |ts| ==> IsWord(ts[i])
    ensures SplitWhitespace(Join(ts, " ")) == ts
  {
    if |ts| == 1 {
      SplitWhitespaceWord(ts[0]);
    } else if |ts| > 1 {
      SplitWhitespaceJoin(ts[1..]);
      SplitWhitespaceWord(ts[0]);
      assert Join(ts, " ") == ts[0] + [' '] + Join(ts[1..], " ");
      SplitWhitespaceAppend(ts[0], ' ', Join(ts[1..], " "));
      assert ts == [ts[0]] + ts[1..];
    }
  }

  lemma JoinSnoc(xs: seq<string>, x: string, sep: string)
    requires xs != []
    ensures Join(xs + [x], sep) == Join(xs, sep) + sep + x
  {
    if |xs| == 1 {
      assert xs + [x] == [xs[0], x];
    } else {
      assert (xs + [x])[1..] == xs[1..] + [x];
      JoinSnoc(xs[1..], x, sep);
    }
  }

  /** The first `c` in `a + [c] + b`, when `a` holds none, sits right after `a`. */
  lemma FindCharAfter(a: string, c: char, b: string)
    requires c !in a
    ensures Find(a + [c] + b, [c]) == Some(|a|)
  {
    var s := a + [c] + b;
    FindChar(s, c);
    assert s[|a|] == c;
  }

  /** Splitting pieces joined by a character none of them holds gives them back. */
  lemma {:induction false} SplitJoinChar(xs: seq<string>, c: char)
    requires |xs| >= 1 && forall i :: 0 <= i < |xs| ==> c !in xs[i]
    ensures Split(Join(xs, [c]), [c]) == xs
  {
    if |xs| == 1 {
      FindChar(xs[0], c);
    } else {
      var rest := Join(xs[1..], [c]);
      assert Join(xs, [c]) == xs[0] + [c] + rest;
      FindCharAfter(xs[0], c, rest);
      var s := xs[0] + [c] + rest;
      assert s[..|xs[0]|] == xs[0];
      assert s[|xs[0]| + 1..] == rest;
      SplitJoinChar(xs[1..], c);
      assert xs == [xs[0]] + xs[1..];
    }
  }

  /** `splitn(2, c)`: the text around the first `c`, or the whole text. */
  lemma SplitNTwoChar(s: string, c: char)
    ensures c !in s ==> SplitN(s, [c], 2) == [s]
    ensures c in s ==> Find(s, [c]).Some? && var i := Find(s, [c]).value;
      && SplitN(s, [c], 2) == [s[..i], s[i + 1..]]
      && s == s[..i] + [c] + s[i + 1..] && c !in s[..i]
  {
    FindChar(s, c);
    if c in s {
      var i := Find(s, [c]).value;
      assert s == s[..i] + [c] + s[i + 1..];
    }
  }
}
