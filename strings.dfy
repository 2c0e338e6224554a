/** Text primitives that the benchmark parsers and the command builders rely on:
    Python's notion of whitespace, scanning helpers over positions of a string,
    `" ".join`, `str.split()` with no argument, and `str(int)`. */
module Strings {

  datatype Option<+T> = None | Some(value: T)

  datatype Result<+T, +E> = Success(value: T) | Failure(error: E)

  /** Python's whitespace: the characters for which `str.isspace()` holds, which is
      also what `\s` matches in a `re` pattern over `str` and what `str.split()`
      splits on. */
  predicate IsSpace(c: char) {
    if c <= ' ' then
      c == ' ' || '\t' <= c <= '\r' || '\U{001C}' <= c   // \t \n \v \f \r, the four separators, space
    else if c < '\U{0085}' then false
    else
      || c == '\U{0085}' || c == '\U{00A0}' || c == '\U{1680}'
      || '\U{2000}' <= c <= '\U{200A}'
      || c == '\U{2028}' || c == '\U{2029}' || c == '\U{202F}' || c == '\U{205F}' || c == '\U{3000}'
  }

  /** No character of `s` is whitespace. */
  predicate NoSpace(s: string) {
    forall k :: 0 <= k < |s| ==> !IsSpace(s[k])
  }

  /** Every character of `s` in [i, j) is whitespace. */
  predicate SpacesBetween(s: string, i: nat, j: nat)
    requires i <= j <= |s|
  {
    forall k :: i <= k < j ==> IsSpace(s[k])
  }

  /** No character of `s` in [i, j) is a newline: what `.` may consume. */
  predicate NoNewlineBetween(s: string, i: nat, j: nat)
    requires i <= j <= |s|
  {
    forall k :: i <= k < j ==> s[k] != '\n'
  }

  /** `t` occurs in `s` at position `i`. */
  predicate StartsAt(s: string, i: nat, t: string) {
    i + |t| <= |s| && s[i..i + |t|] == t
  }

  /** A character of an occurrence of `t` in `s`. */
  lemma StartsAtChar(s: string, i: nat, t: string, k: nat)
    requires k < |t|
    ensures StartsAt(s, i, t) ==> s[i + k] == t[k]
  {
    if StartsAt(s, i, t) {
      assert s[i..i + |t|][k] == s[i + k];
    }
  }

  /** `n` blanks, as in the padding of sysbench's aligned reports. */
  function Spaces(n: nat): (s: string)
    ensures |s| == n && forall k :: 0 <= k < n ==> s[k] == ' '
  {
    seq(n, _ => ' ')
  }

  /** `t` occurs somewhere in `s`. */
  ghost predicate Occurs(s: string, t: string) {
    exists p: nat :: StartsAt(s, p, t)
  }

  /** End of the run of whitespace that starts at `i`: what a greedy `\s*` consumes. */
  function SkipSpaces(s: string, i: nat): (j: nat)
    requires i <= |s|
    ensures i <= j <= |s|
    ensures SpacesBetween(s, i, j)
    ensures j < |s| ==> !IsSpace(s[j])
    decreases |s| - i
  {
    if i == |s| || !IsSpace(s[i]) then i else SkipSpaces(s, i + 1)
  }

  /** Position of the first newline at or after `i`, or |s|: the end of a greedy `.*`. */
  function LineEnd(s: string, i: nat): (j: nat)
    requires i <= |s|
    ensures i <= j <= |s|
    ensures NoNewlineBetween(s, i, j)
    ensures j < |s| ==> s[j] == '\n'
    decreases |s| - i
  {
    if i == |s| || s[i] == '\n' then i else LineEnd(s, i + 1)
  }

  /** Position of the first whitespace at or after `i`, or |s|: the end of a token. */
  function TokenEnd(s: string, i: nat): (j: nat)
    requires i <= |s|
    ensures i <= j <= |s|
    ensures forall k :: i <= k < j ==> !IsSpace(s[k])
    ensures j < |s| ==> IsSpace(s[j])
    decreases |s| - i
  {
    if i == |s| || IsSpace(s[i]) then i else TokenEnd(s, i + 1)
  }

  /** No run of whitespace from `i` is longer than the one `SkipSpaces` consumes. */
  lemma SkipSpacesMax(s: string, i: nat, j: nat)
    requires i <= j <= |s|
    requires SpacesBetween(s, i, j)
    ensures j <= SkipSpaces(s, i)
  {
  }

  /** No newline-free stretch from `i` reaches past `LineEnd`. */
  lemma LineEndMax(s: string, i: nat, j: nat)
    requires i <= j <= |s|
    requires NoNewlineBetween(s, i, j)
    ensures j <= LineEnd(s, i)
  {
  }

  /** `SkipSpaces` stops at the first non-whitespace character. */
  lemma {:induction false} SkipSpacesTo(s: string, i: nat, j: nat)
    requires i <= j <= |s|
    requires SpacesBetween(s, i, j)
    requires j == |s| || !IsSpace(s[j])
    ensures SkipSpaces(s, i) == j
    decreases j - i
  {
    if i < j {
      SkipSpacesTo(s, i + 1, j);
    }
  }

  /** `LineEnd` stops at the first newline. */
  lemma {:induction false} LineEndAt(s: string, i: nat, j: nat)
    requires i <= j < |s|
    requires NoNewlineBetween(s, i, j)
    requires s[j] == '\n'
    ensures LineEnd(s, i) == j
    decreases j - i
  {
    if i < j {
      LineEndAt(s, i + 1, j);
    }
  }

  /** `sep.join(xs)`. */
  function Join(sep: string, xs: seq<string>): string {
    if |xs| == 0 then ""
    else if |xs| == 1 then xs[0]
    else xs[0] + sep + Join(sep, xs[1..])
  }

  /** `Join` takes the first word off a list of two or more. */
  lemma JoinCons(x: string, rest: seq<string>)
    requires rest != []
    ensures Join(" ", [x] + rest) == x + " " + Join(" ", rest)
  {
    assert ([x] + rest)[1..] == rest;
  }

  /** Joining two non-empty lists is joining each and putting one separator between. */
  lemma {:induction false} JoinAppend(xs: seq<string>, ys: seq<string>)
    requires xs != [] && ys != []
    ensures Join(" ", xs + ys) == Join(" ", xs) + " " + Join(" ", ys)
    decreases |xs|
  {
    if |xs| == 1 {
      assert (xs + ys)[1..] == ys;
    } else {
      JoinAppend(xs[1..], ys);
      assert (xs + ys)[1..] == xs[1..] + ys;
    }
  }

  /** A token `str.split()` can produce: non-empty and free of whitespace. */
  predicate IsToken(t: string) {
    t != [] && NoSpace(t)
  }

  /** Every element of `xs` is a token. */
  predicate AllTokens(xs: seq<string>) {
    forall i :: 0 <= i < |xs| ==> IsToken(xs[i])
  }

  /** A token in front of a list of tokens gives a list of tokens. */
  lemma TokensCons(x: string, rest: seq<string>)
    requires IsToken(x) && AllTokens(rest)
    ensures AllTokens([x] + rest)
  {
    forall i | 0 <= i < |rest| + 1 ensures IsToken(([x] + rest)[i]) {
      if i > 0 {
        assert ([x] + rest)[i] == rest[i - 1];
      }
    }
  }

  /** `s.split()`: the maximal runs of non-whitespace characters, in order. */
  function Split(s: string): (r: seq<string>)
    ensures AllTokens(r)
    decreases |s|
  {
    if s == [] then []
    else if IsSpace(s[0]) then Split(s[1..])
    else
      var j := TokenEnd(s, 0);
      [s[..j]] + Split(s[j..])
  }

  /** Splitting a space-joined list of tokens gives the list back: `" ".join`
      and `str.split()` are inverse on lists of tokens. */
  lemma {:induction false} SplitJoin(xs: seq<string>)
    requires AllTokens(xs)
    ensures Split(Join(" ", xs)) == xs
  {
    if |xs| == 0 {
    } else if |xs| == 1 {
      SplitToken(xs[0], "");
      assert xs[0] + "" == xs[0];
    } else {
      var rest := Join(" ", xs[1..]);
      SplitJoin(xs[1..]);
      assert Join(" ", xs) == xs[0] + (" " + rest);
      SplitToken(xs[0], " " + rest);
      assert (" " + rest)[1..] == rest;
      assert [xs[0]] + xs[1..] == xs;
    }
  }

  /** A token followed by nothing or by whitespace is split off as the first element. */
  lemma SplitToken(t: string, rest: string)
    requires IsToken(t)
    requires rest == [] || IsSpace(rest[0])
    ensures Split(t + rest) == [t] + Split(rest)
  {
    var s := t + rest;
    var j := TokenEnd(s, 0);
    assert forall k :: 0 <= k < |t| ==> !IsSpace(s[k]) by {
      forall k | 0 <= k < |t| ensures s[k] == t[k] { }
    }
    assert |t| < |s| ==> IsSpace(s[|t|]);
    assert j == |t|;
    assert s[..j] == t;
    assert s[j..] == rest;
  }

  /** The decimal digit `d` as a character. */
  function DigitChar(d: nat): (c: char)
    requires d < 10
    ensures '0' <= c <= '9'
  {
    (48 + d) as char
  }

  /** `str(n)` for a non-negative `n`: decimal digits, most significant first. */
  function NatToDecimal(n: nat): (s: string)
    ensures |s| >= 1
    ensures forall k :: 0 <= k < |s| ==> '0' <= s[k] <= '9'
    ensures |s| > 1 ==> s[0] != '0'
    decreases n
  {
    if n < 10 then [DigitChar(n)] else NatToDecimal(n / 10) + [DigitChar(n % 10)]
  }

  /** `str(n)` for any integer `n`: a minus sign in front of a negative number. */
  function IntToDecimal(n: int): (s: string)
    ensures IsToken(s)
  {
    if n < 0 then "-" + NatToDecimal(-n) else NatToDecimal(n)
  }

  /** The number a string of decimal digits denotes: the reference reading of `NatToDecimal`. */
  function DecimalValue(s: string): nat
    requires forall k :: 0 <= k < |s| ==> '0' <= s[k] <= '9'
  {
    if s == [] then 0
    else 10 * DecimalValue(s[..|s| - 1]) + ((s[|s| - 1] as int) - 48)
  }

  /** Reading back the digits `NatToDecimal` writes gives the number. */
  lemma {:induction false} DecimalRoundTrip(n: nat)
    ensures DecimalValue(NatToDecimal(n)) == n
  {
    if n >= 10 {
      var s := NatToDecimal(n);
      DecimalRoundTrip(n / 10);
      assert s[..|s| - 1] == NatToDecimal(n / 10);
    }
  }
}
