/**
 * The Python string operations the recommender relies on, restricted to the
 * Latin-1 range for whitespace and to ASCII for letters and digits:
 * `str.lower()`, `str.strip()`, `str.split()` without arguments,
 * `str.isdigit()`, `int(str)` on a digit string and the substring test `k in s`.
 */
module Text {

  /** `c.isspace()` for the characters U+0000 to U+00FF. */
  predicate IsWs(c: char) {
    c == ' ' || ('\U{9}' <= c <= '\U{D}') || ('\U{1C}' <= c <= '\U{1F}') || c == '\U{85}' || c == '\U{A0}'
  }

  predicate AllWs(s: string) {
    forall i :: 0 <= i < |s| ==> IsWs(s[i])
  }

  /** A token `str.split()` can produce: non-empty and free of whitespace. */
  predicate IsWord(w: string) {
    |w| > 0 && forall i :: 0 <= i < |w| ==> !IsWs(w[i])
  }

  // ---------------------------------------------------------------- lower()

  function LowerChar(c: char): char {
    if 'A' <= c <= 'Z' then (c as int + 32) as char else c
  }

  /** `s.lower()` on ASCII letters; every other character is kept. */
  function Lower(s: string): (r: string)
    ensures |r| == |s|
    ensures forall i :: 0 <= i < |s| ==> r[i] == LowerChar(s[i])
  {
    seq(|s|, i requires 0 <= i < |s| => LowerChar(s[i]))
  }

  // ---------------------------------------------------------------- strip()

  /** Drops the leading whitespace of `s`. */
  function TrimStart(s: string): (r: string)
    ensures |r| <= |s| && r == s[|s| - |r|..]
    ensures AllWs(s[..|s| - |r|])
    ensures r == [] || !IsWs(r[0])
    decreases |s|
  {
    if s != [] && IsWs(s[0]) then
      var r := TrimStart(s[1..]);
      assert s[|s| - |r|..] == s[1..][|s| - 1 - |r|..];
      assert s[..|s| - |r|] == [s[0]] + s[1..][..|s| - 1 - |r|];
      r
    else
      s
  }

  /** Drops the trailing whitespace of `s`. */
  function TrimEnd(s: string): (r: string)
    ensures |r| <= |s| && r == s[..|r|]
    ensures AllWs(s[|r|..])
    ensures r == [] || !IsWs(r[|r| - 1])
    decreases |s|
  {
    if s != [] && IsWs(s[|s| - 1]) then
      var init := s[..|s| - 1];
      var r := TrimEnd(init);
      assert s[..|r|] == init[..|r|];
      assert s[|r|..] == init[|r|..] + [s[|s| - 1]];
      r
    else
      s
  }

  /** `s.strip()`. */
  function Strip(s: string): string {
    TrimEnd(TrimStart(s))
  }

  /** `not s.strip()` holds exactly when `s` is empty or made only of whitespace. */
  lemma StripEmptyIff(s: string)
    ensures Strip(s) == [] <==> AllWs(s)
  {
    var t := TrimStart(s);
    assert |t| > 0 ==> t[0] == s[|s| - |t|];
    if Strip(s) == [] {
      assert AllWs(t[0..]);
      assert t[0..] == t;
      assert s[..|s| - |t|] == s;
    }
  }

  // ---------------------------------------------------------------- split()

  /** Length of the run of non-whitespace characters that starts `s`. */
  function WordLen(s: string): (n: nat)
    ensures n <= |s|
    ensures forall i :: 0 <= i < n ==> !IsWs(s[i])
    ensures n == |s| || IsWs(s[n])
    decreases |s|
  {
    if s == [] || IsWs(s[0]) then 0 else 1 + WordLen(s[1..])
  }

  /** `s.split()`: the maximal runs of non-whitespace characters, in order. */
  function SplitWs(s: string): (r: seq<string>)
    ensures forall k :: 0 <= k < |r| ==> IsWord(r[k])
    decreases |s|
  {
    if s == [] then []
    else if IsWs(s[0]) then SplitWs(s[1..])
    else
      var n := WordLen(s);
      [s[..n]] + SplitWs(s[n..])
  }

  /** A string that starts with a non-whitespace character splits off its first word. */
  lemma SplitWordCase(s: string)
    requires s != [] && !IsWs(s[0])
    ensures SplitWs(s) == [s[..WordLen(s)]] + SplitWs(s[WordLen(s)..])
  {
  }

  /** `" ".join(ws)`. */
  function JoinWs(ws: seq<string>): string
    decreases |ws|
  {
    if ws == [] then ""
    else if |ws| == 1 then ws[0]
    else ws[0] + " " + JoinWs(ws[1..])
  }

  lemma {:induction false} WordLenAt(w: string, s: string)
    requires forall i :: 0 <= i < |w| ==> !IsWs(w[i])
    requires s == [] || IsWs(s[0])
    ensures WordLen(w + s) == |w|
    decreases |w|
  {
    if w == [] {
      assert w + s == s;
    } else {
      assert (w + s)[1..] == w[1..] + s;
      WordLenAt(w[1..], s);
    }
  }

  /** A word followed by nothing or by whitespace is split off as one token. */
  lemma SplitWordThen(w: string, s: string)
    requires IsWord(w)
    requires s == [] || IsWs(s[0])
    ensures SplitWs(w + s) == [w] + SplitWs(s)
  {
    var t := w + s;
    assert t[0] == w[0];
    var n := WordLen(t);
    WordLenAt(w, s);
    assert t[..n] == w;
    assert t[n..] == s;
  }

  /** Leading whitespace never produces a token. */
  lemma SplitSkipsWs(s: string)
    requires s != [] && IsWs(s[0])
    ensures SplitWs(s) == SplitWs(s[1..])
  {
  }

  /** Splitting undoes joining with single spaces: `" ".join(ws).split() == ws`. */
  lemma {:induction false} SplitJoin(ws: seq<string>)
    requires forall k :: 0 <= k < |ws| ==> IsWord(ws[k])
    ensures SplitWs(JoinWs(ws)) == ws
    decreases |ws|
  {
    if ws == [] {
      SplitEmpty();
    } else if |ws| == 1 {
      SplitOneWord(ws[0]);
    } else {
      SplitJoin(ws[1..]);
      SplitJoinStep(ws);
    }
  }

  lemma SplitEmpty()
    ensures SplitWs("") == []
  {
  }

  /** A single word splits into itself. */
  lemma SplitOneWord(w: string)
    requires IsWord(w)
    ensures SplitWs(w) == [w]
  {
    assert w + "" == w;
    SplitWordThen(w, "");
    SplitEmpty();
  }

  lemma SplitJoinStep(ws: seq<string>)
    requires |ws| > 1
    requires forall k :: 0 <= k < |ws| ==> IsWord(ws[k])
    requires SplitWs(JoinWs(ws[1..])) == ws[1..]
    ensures SplitWs(JoinWs(ws)) == ws
  {
    var w, rest := ws[0], JoinWs(ws[1..]);
    JoinCons(ws);
    SplitSpaceThen(rest);
    SplitWordThen(w, " " + rest);
    ConsEq(ws, w, ws[1..]);
  }

  lemma ConsEq<T>(ws: seq<T>, w: T, tail: seq<T>)
    requires |ws| > 0 && w == ws[0] && tail == ws[1..]
    ensures ws == [w] + tail
  {
  }

  lemma JoinCons(ws: seq<string>)
    requires |ws| > 1
    ensures JoinWs(ws) == ws[0] + (" " + JoinWs(ws[1..]))
  {
  }

  lemma SplitSpaceThen(rest: string)
    ensures SplitWs(" " + rest) == SplitWs(rest)
  {
    var sp := " " + rest;
    assert sp[1..] == rest;
    SplitSkipsWs(sp);
  }

  /** A prefix made only of whitespace produces no token. */
  lemma {:induction false} SplitAfterWs(a: string, s: string)
    requires AllWs(a)
    ensures SplitWs(a + s) == SplitWs(s)
    decreases |a|
  {
    if a == [] {
      assert a + s == s;
    } else {
      var x, y := a + s, a[1..] + s;
      assert x[1..] == y;
      assert IsWs(x[0]);
      SplitSkipsWs(x);
      SplitAfterWs(a[1..], s);
    }
  }

  /**
   * Splitting distributes over a whitespace separator: the tokens of `a + s`,
   * where `s` is empty or starts with whitespace, are those of `a` followed by
   * those of `s`.
   */
  lemma {:induction false} SplitConcat(a: string, s: string)
    requires s == [] || IsWs(s[0])
    ensures SplitWs(a + s) == SplitWs(a) + SplitWs(s)
    decreases |a|
  {
    if a == [] {
      assert a + s == s;
    } else if IsWs(a[0]) {
      var x, y := a + s, a[1..] + s;
      assert x[1..] == y && x[0] == a[0];
      SplitSkipsWs(x);
      SplitConcat(a[1..], s);
    } else {
      SplitConcat(a[WordLen(a)..], s);
      SplitConcatStep(a, s);
    }
  }

  lemma SplitConcatStep(t: string, s: string)
    requires t != [] && !IsWs(t[0])
    requires s == [] || IsWs(s[0])
    requires SplitWs(t[WordLen(t)..] + s) == SplitWs(t[WordLen(t)..]) + SplitWs(s)
    ensures SplitWs(t + s) == SplitWs(t) + SplitWs(s)
  {
    var w, rest := t[..WordLen(t)], t[WordLen(t)..];
    SplitFirstWord(t, s);
    SplitFirstWord(t, "");
    assert t + "" == t && rest + "" == rest;
    ConsThenAppend(SplitWs(t), SplitWs(rest), SplitWs(t + s), SplitWs(rest + s), SplitWs(s), w);
  }

  lemma ConsThenAppend<T>(a: seq<T>, b: seq<T>, c: seq<T>, d: seq<T>, e: seq<T>, w: T)
    requires a == [w] + b && c == [w] + d && d == b + e
    ensures c == a + e
  {
  }

  /** The first token of `t + s` is the first word of `t` when `s` starts with whitespace. */
  lemma SplitFirstWord(t: string, s: string)
    requires t != [] && !IsWs(t[0])
    requires s == [] || IsWs(s[0])
    ensures SplitWs(t + s) == [t[..WordLen(t)]] + SplitWs(t[WordLen(t)..] + s)
  {
    var n := WordLen(t);
    var w, rest := t[..n], t[n..];
    FirstWord(t);
    SplitAt(t, s, n);
    assert rest != [] ==> (rest + s)[0] == rest[0];
    SplitWordThen(w, rest + s);
  }

  /** The first word of a string that starts with a non-whitespace character. */
  lemma FirstWord(t: string)
    requires t != [] && !IsWs(t[0])
    ensures IsWord(t[..WordLen(t)])
    ensures t[WordLen(t)..] == [] || IsWs(t[WordLen(t)..][0])
  {
  }

  lemma SplitAt<T>(t: seq<T>, s: seq<T>, n: nat)
    requires n <= |t|
    ensures t + s == t[..n] + (t[n..] + s)
  {
  }

  // ---------------------------------------------------------------- isdigit() and int()

  predicate IsDigit(c: char) {
    '0' <= c <= '9'
  }

  /** `t.isdigit()` on ASCII: non-empty and made only of decimal digits. */
  predicate IsDigitToken(t: string) {
    |t| > 0 && forall i :: 0 <= i < |t| ==> IsDigit(t[i])
  }

  /** `int(t)` for a string of decimal digits. */
  function DigitValue(t: string): nat
    requires forall i :: 0 <= i < |t| ==> IsDigit(t[i])
    decreases |t|
  {
    if t == [] then 0 else assert IsDigit(t[|t| - 1]); 10 * DigitValue(t[..|t| - 1]) + (t[|t| - 1] as int - '0' as int)
  }

  function DigitChar(d: nat): (c: char)
    requires d < 10
    ensures IsDigit(c) && c as int - '0' as int == d
  {
    ('0' as int + d) as char
  }

  /** `str(n)`: the decimal numeral of `n`, without leading zeros. */
  function Decimal(n: nat): string
    decreases n
  {
    if n < 10 then [DigitChar(n)] else Decimal(n / 10) + [DigitChar(n % 10)]
  }

  /** `int(str(n)) == n`, and `str(n).isdigit()`. */
  lemma {:induction false} DecimalRoundTrip(n: nat)
    ensures IsDigitToken(Decimal(n)) && DigitValue(Decimal(n)) == n
    decreases n
  {
    if n >= 10 {
      DecimalRoundTrip(n / 10);
      var t := Decimal(n);
      assert t[..|t| - 1] == Decimal(n / 10);
    }
  }

  /** `int("0" + t) == int(t)`: leading zeros do not change the value. */
  lemma {:induction false} LeadingZero(t: string)
    requires forall i :: 0 <= i < |t| ==> IsDigit(t[i])
    ensures DigitValue("0" + t) == DigitValue(t)
    decreases |t|
  {
    if t != [] {
      var z := "0" + t;
      assert z[..|z| - 1] == "0" + t[..|t| - 1];
      LeadingZero(t[..|t| - 1]);
    }
  }

  // ---------------------------------------------------------------- k in s

  ghost predicate OccursAt(s: string, k: string, i: int) {
    0 <= i && i + |k| <= |s| && s[i..i + |k|] == k
  }

  /** The substring test `k in s`. */
  function Contains(s: string, k: string): (b: bool)
    ensures b <==> exists i :: OccursAt(s, k, i)
    decreases |s|
  {
    if |k| <= |s| && s[..|k|] == k then
      assert OccursAt(s, k, 0);
      true
    else if s == [] then
      false
    else
      var b := Contains(s[1..], k);
      assert b ==> exists i :: OccursAt(s, k, i) by {
        if b {
          var i :| OccursAt(s[1..], k, i);
          assert s[1..][i..i + |k|] == s[i + 1..i + 1 + |k|];
          assert OccursAt(s, k, i + 1);
        }
      }
      assert forall i :: OccursAt(s, k, i) && i > 0 ==> OccursAt(s[1..], k, i - 1) by {
        forall i | OccursAt(s, k, i) && i > 0 ensures OccursAt(s[1..], k, i - 1) {
          assert s[1..][i - 1..i - 1 + |k|] == s[i..i + |k|];
        }
      }
      b
  }
}
