/** The regular expressions the benchmark parsers apply to sysbench output, and
    `re.findall(pattern, output)[0]` over them.

    Every pattern in the parsers has the shape `lead\s*open(.*)tail`, where `lead`
    and `open` are literal text and `tail` is either `\s` followed by literal
    text or literal text alone. `\s` is Python's whitespace, newlines included;
    `.` is any character but a newline. The matcher below follows Python's
    backtracking order: start positions from the left, then the ends of the
    greedy `\s*` from the longest down, then the ends of the greedy group from
    the longest down. Its contracts tie it to a declarative reading (`IsMatch`,
    `IsFirstMatch`): the first match starts as far left as any match can, and
    among the matches there it has the longest `\s*`, then the longest group. */
module Patterns {
  import opened Strings

  /** What must follow the captured group. */
  datatype Tail =
    | SpaceThen(lit: string)   // `\s` followed by the literal `lit`
    | Literal(lit: string)     // the literal `lit` alone

  /** The regular expression `lead\s*open(.*)tail`. */
  datatype Pattern = Pattern(lead: string, open: string, tail: Tail)

  /** `r"<title>\s*(.*)\s"`: the value after a title such as `"min:"`. */
  function LabelPattern(title: string): Pattern {
    Pattern(title, "", SpaceThen(""))
  }

  /** `r"\s*(.*)\stransferred"`: the amount in sysbench's memory report. */
  function TransferredAmount(): Pattern {
    Pattern("", "", SpaceThen("transferred"))
  }

  /** `r"transferred\s*\((.*)\)"`: the rate in sysbench's memory report. */
  function TransferredRate(): Pattern {
    Pattern("transferred", "(", Literal(")"))
  }

  /** The tail of a pattern matches `s` at position `e`. */
  predicate TailAt(tail: Tail, s: string, e: nat) {
    match tail
    case SpaceThen(lit) => e < |s| && IsSpace(s[e]) && StartsAt(s, e + 1, lit)
    case Literal(lit) => StartsAt(s, e, lit)
  }

  /** The part of a match after `\s*`, which ended at `q`: `open` at `q`, then a group
      [q + |open|, e) that stays within one line, then the tail at `e`. */
  predicate RestMatches(pat: Pattern, s: string, q: nat, e: nat) {
    && StartsAt(s, q, pat.open)
    && q + |pat.open| <= e <= |s|
    && NoNewlineBetween(s, q + |pat.open|, e)
    && TailAt(pat.tail, s, e)
  }

  /** One way for `pat` to match `s`: starting at `p`, with the `\s*` ending at `q`
      and the group ending at `e`. */
  predicate IsMatch(pat: Pattern, s: string, p: nat, q: nat, e: nat) {
    && StartsAt(s, p, pat.lead)
    && p + |pat.lead| <= q <= |s|
    && SpacesBetween(s, p + |pat.lead|, q)
    && RestMatches(pat, s, q, e)
  }

  /** Among the matches that start at `p`, the one the greedy quantifiers pick:
      the longest `\s*`, then the longest group. */
  ghost predicate IsGreedyMatch(pat: Pattern, s: string, p: nat, q: nat, e: nat) {
    && IsMatch(pat, s, p, q, e)
    && forall q': nat, e': nat :: IsMatch(pat, s, p, q', e') ==> q' < q || (q' == q && e' <= e)
  }

  /** The match `re.search` reports: no match starts further left, and it is greedy. */
  ghost predicate IsFirstMatch(pat: Pattern, s: string, p: nat, q: nat, e: nat) {
    && IsGreedyMatch(pat, s, p, q, e)
    && forall p': nat, q': nat, e': nat :: p' < p ==> !IsMatch(pat, s, p', q', e')
  }

  /** The group a match captures. */
  function Group(pat: Pattern, s: string, q: nat, e: nat): string
    requires q + |pat.open| <= e <= |s|
  {
    s[q + |pat.open|..e]
  }

  /** The ends of the group tried from `e` down to `c`, as the greedy `(.*)` gives back
      one character at a time: the last end in [c, e] at which the tail matches. */
  function LastTail(tail: Tail, s: string, c: nat, e: nat): (r: Option<nat>)
    requires c <= e <= |s|
    ensures r.Some? ==> c <= r.value <= e && TailAt(tail, s, r.value)
    ensures forall e': nat :: (if r.Some? then r.value < e' else c <= e') && e' <= e ==> !TailAt(tail, s, e')
    decreases e - c
  {
    if TailAt(tail, s, e) then Some(e)
    else if e == c then None
    else LastTail(tail, s, c, e - 1)
  }

  /** The ends of `\s*` tried from `q` down to `start`; at each, `open` and then the
      group, which runs at most to the end of the line. */
  function TrySpaces(pat: Pattern, s: string, start: nat, q: nat): (r: Option<(nat, nat)>)
    requires start <= q <= |s|
    ensures r.Some? ==> start <= r.value.0 <= q && RestMatches(pat, s, r.value.0, r.value.1)
    ensures r.Some? ==> forall e: nat :: RestMatches(pat, s, r.value.0, e) ==> e <= r.value.1
    ensures forall q': nat, e: nat :: (if r.Some? then r.value.0 < q' else start <= q') && q' <= q ==> !RestMatches(pat, s, q', e)
    decreases q - start
  {
    var here :=
      if StartsAt(s, q, pat.open) then
        var c := q + |pat.open|;
        var lineEnd := LineEnd(s, c);
        assert forall e: nat :: RestMatches(pat, s, q, e) ==> e <= lineEnd;
        match LastTail(pat.tail, s, c, lineEnd)
        case Some(e) => Some((q, e))
        case None => None
      else None;
    if here.Some? || q == start then here else TrySpaces(pat, s, start, q - 1)
  }

  /** The match of `pat` that starts at `p`, if any: the \s* ending and the group ending. */
  function MatchAt(pat: Pattern, s: string, p: nat): (r: Option<(nat, nat)>)
    requires p <= |s|
    ensures r.Some? ==> IsGreedyMatch(pat, s, p, r.value.0, r.value.1)
    ensures r.None? ==> forall q: nat, e: nat :: !IsMatch(pat, s, p, q, e)
  {
    if StartsAt(s, p, pat.lead) then
      var start := p + |pat.lead|;
      var q := SkipSpaces(s, start);
      assert forall q': nat, e: nat :: IsMatch(pat, s, p, q', e) ==> q' <= q;
      TrySpaces(pat, s, start, q)
    else None
  }

  /** Start positions tried from `p` rightwards: the leftmost match at or after `p`. */
  function Search(pat: Pattern, s: string, p: nat): (r: Option<(nat, nat, nat)>)
    requires p <= |s|
    ensures r.Some? ==> p <= r.value.0 && IsGreedyMatch(pat, s, r.value.0, r.value.1, r.value.2)
    ensures forall p': nat, q: nat, e: nat :: p <= p' && (r.None? || p' < r.value.0) ==> !IsMatch(pat, s, p', q, e)
    decreases |s| - p
  {
    match MatchAt(pat, s, p)
    case Some(m) => Some((p, m.0, m.1))
    case None => if p == |s| then None else Search(pat, s, p + 1)
  }

  /** `re.findall(pat, s)[0]`: the group of the first match, or None where findall
      returns an empty list and `[0]` raises IndexError. */
  function FindFirst(pat: Pattern, s: string): (r: Option<string>)
    ensures r.Some? <==> exists p: nat, q: nat, e: nat :: IsMatch(pat, s, p, q, e)
  {
    match Search(pat, s, 0)
    case Some(m) => Some(Group(pat, s, m.1, m.2))
    case None => None
  }

  /** The first match is unique, so naming it determines what findall returns first. */
  lemma FindFirstIs(pat: Pattern, s: string, p: nat, q: nat, e: nat)
    requires IsFirstMatch(pat, s, p, q, e)
    ensures FindFirst(pat, s) == Some(Group(pat, s, q, e))
  {
    var r := Search(pat, s, 0);
    assert IsMatch(pat, s, p, q, e);
    var m := r.value;
    assert IsMatch(pat, s, m.0, m.1, m.2);
    assert m.0 == p;
    assert m.1 == q && m.2 == e;
  }

  /** The first match behind a result of findall. */
  lemma FirstMatchOf(pat: Pattern, s: string) returns (p: nat, q: nat, e: nat)
    requires FindFirst(pat, s).Some?
    ensures IsFirstMatch(pat, s, p, q, e)
    ensures FindFirst(pat, s) == Some(Group(pat, s, q, e))
  {
    var m := Search(pat, s, 0).value;
    p, q, e := m.0, m.1, m.2;
  }

  /** A match whose `\s*` runs as far as whitespace allows and whose group is the
      longest after that is the greedy match at its start. */
  lemma GreedyAt(pat: Pattern, s: string, p: nat, q: nat, e: nat)
    requires StartsAt(s, p, pat.lead) && q == SkipSpaces(s, p + |pat.lead|)
    requires RestMatches(pat, s, q, e)
    requires forall e': nat :: RestMatches(pat, s, q, e') ==> e' <= e
    ensures IsGreedyMatch(pat, s, p, q, e)
  {
    forall q': nat, e': nat | IsMatch(pat, s, p, q', e') ensures q' < q || (q' == q && e' <= e) {
      SkipSpacesMax(s, p + |pat.lead|, q');
    }
  }

  /** With `lead` first occurring at `p`, the greedy match there is what findall
      returns first. */
  lemma FirstMatchIs(pat: Pattern, s: string, p: nat, q: nat, e: nat)
    requires StartsAt(s, p, pat.lead) && q == SkipSpaces(s, p + |pat.lead|)
    requires forall p': nat :: p' < p ==> !StartsAt(s, p', pat.lead)
    requires RestMatches(pat, s, q, e)
    requires forall e': nat :: RestMatches(pat, s, q, e') ==> e' <= e
    ensures FindFirst(pat, s) == Some(Group(pat, s, q, e))
  {
    FirstMatchFrom(pat, s, p, q, e);
  }

  /** When no match starts before `p`, the greedy match at `p` is what findall returns
      first. */
  lemma FirstMatchFrom(pat: Pattern, s: string, p: nat, q: nat, e: nat)
    requires StartsAt(s, p, pat.lead) && q == SkipSpaces(s, p + |pat.lead|)
    requires forall p': nat, q': nat, e': nat :: p' < p ==> !IsMatch(pat, s, p', q', e')
    requires RestMatches(pat, s, q, e)
    requires forall e': nat :: RestMatches(pat, s, q, e') ==> e' <= e
    ensures FindFirst(pat, s) == Some(Group(pat, s, q, e))
  {
    GreedyAt(pat, s, p, q, e);
    FindFirstIs(pat, s, p, q, e);
  }

  /** Whatever findall returns first lies within one line of `s`. */
  lemma FoundOnOneLine(pat: Pattern, s: string)
    requires FindFirst(pat, s).Some?
    ensures '\n' !in FindFirst(pat, s).value
  {
    var p, q, e := FirstMatchOf(pat, s);
    var v := Group(pat, s, q, e);
    forall k | 0 <= k < |v| ensures v[k] != '\n' {
      assert v[k] == s[q + |pat.open| + k];
    }
  }

  /** Whatever findall returns first occurs in `s` directly before a match of the tail. */
  lemma FoundBeforeTail(pat: Pattern, s: string)
    requires FindFirst(pat, s).Some?
    ensures exists i: nat :: StartsAt(s, i, FindFirst(pat, s).value) && TailAt(pat.tail, s, i + |FindFirst(pat, s).value|)
  {
    var p, q, e := FirstMatchOf(pat, s);
    var i := q + |pat.open|;
    assert IsMatch(pat, s, p, q, e);
    assert FindFirst(pat, s).value == s[i..e];
    assert StartsAt(s, i, FindFirst(pat, s).value) && TailAt(pat.tail, s, i + |FindFirst(pat, s).value|);
  }

  /** A titled value: with the first occurrence of `title` at `p`, and a newline somewhere
      after the whitespace that follows it, findall's first result is the rest of the
      line once that whitespace (newlines included) is skipped. */
  lemma LabelValueIsRestOfLine(title: string, s: string, p: nat)
    requires StartsAt(s, p, title)
    requires forall p': nat :: p' < p ==> !StartsAt(s, p', title)
    requires LineEnd(s, SkipSpaces(s, p + |title|)) < |s|
    ensures var q := SkipSpaces(s, p + |title|);
      FindFirst(LabelPattern(title), s) == Some(s[q..LineEnd(s, q)])
  {
    var pat := LabelPattern(title);
    var q := SkipSpaces(s, p + |title|);
    var e := LineEnd(s, q);
    LabelRestIsLine(title, s, q);
    LabelGroup(title, s, q, e);
    FirstMatchIs(pat, s, p, q, e);
  }

  /** A title's group is the text from the end of the whitespace to the end of the group. */
  lemma LabelGroup(title: string, s: string, q: nat, e: nat)
    requires q <= e <= |s|
    ensures Group(LabelPattern(title), s, q, e) == s[q..e]
  {
  }

  /** After a title's whitespace, the longest way to finish the match ends the group at
      the newline. */
  lemma LabelRestIsLine(title: string, s: string, q: nat)
    requires q <= |s| && LineEnd(s, q) < |s|
    ensures RestMatches(LabelPattern(title), s, q, LineEnd(s, q))
    ensures forall e': nat :: RestMatches(LabelPattern(title), s, q, e') ==> e' <= LineEnd(s, q)
  {
    var e := LineEnd(s, q);
    assert StartsAt(s, q, "") && StartsAt(s, e + 1, "");
    forall e': nat | RestMatches(LabelPattern(title), s, q, e') ensures e' <= e {
      LineEndMax(s, q, e');
    }
  }


  /** On output whose last line ends in a newline, findall finds something for a title
      exactly when the title occurs: the `[0]` raises only for a missing title. */
  lemma LabelFoundIff(title: string, s: string)
    requires title != [] && title[|title| - 1] != '\n'
    requires |s| > 0 && s[|s| - 1] == '\n'
    ensures FindFirst(LabelPattern(title), s).Some? <==> exists p: nat :: StartsAt(s, p, title)
  {
    forall p: nat | StartsAt(s, p, title) ensures FindFirst(LabelPattern(title), s).Some? {
      var q, e := LabelMatchAt(title, s, p);
    }
  }

  /** On newline-terminated output, a title is always followed by a match of its pattern:
      up to the end of the line, or, where the whitespace after it runs to the end of the
      output, giving back that last newline. */
  lemma LabelMatchAt(title: string, s: string, p: nat) returns (q: nat, e: nat)
    requires title != [] && title[|title| - 1] != '\n'
    requires |s| > 0 && s[|s| - 1] == '\n'
    requires StartsAt(s, p, title)
    ensures IsMatch(LabelPattern(title), s, p, q, e)
  {
    var start := p + |title|;
    q := SkipSpaces(s, start);
    assert StartsAt(s, q, "");
    if q < |s| {
      e := LineEnd(s, q);
      assert s[|s| - 1] == '\n';
      assert e < |s|;
      assert StartsAt(s, e + 1, "");
    } else {
      assert s[start - 1] == title[|title| - 1];
      assert start < |s|;
      q, e := q - 1, q - 1;
      assert StartsAt(s, q, "") && StartsAt(s, q + 1, "");
    }
  }

  /** The amount pattern finds something exactly when some whitespace character is
      directly followed by `transferred`. */
  lemma TransferredAmountFoundIff(s: string)
    ensures FindFirst(TransferredAmount(), s).Some? <==>
      exists j: nat :: j < |s| && IsSpace(s[j]) && StartsAt(s, j + 1, "transferred")
  {
    var pat := TransferredAmount();
    forall j: nat | j < |s| && IsSpace(s[j]) && StartsAt(s, j + 1, "transferred")
      ensures FindFirst(pat, s).Some?
    {
      assert StartsAt(s, j, "");
      assert IsMatch(pat, s, j, j, j);
    }
  }

  /** The rate: with the first `transferred` at `p`, and the whitespace after it ending
      at a `(` at `q`, the value is the text from after `(` to the last `)` on that line. */
  lemma TransferredRateIsParenthesized(s: string, p: nat, q: nat, e: nat, value: string)
    requires StartsAt(s, p, "transferred")
    requires forall p': nat :: p' < p ==> !StartsAt(s, p', "transferred")
    requires q == SkipSpaces(s, p + 11) && StartsAt(s, q, "(")
    requires q + 1 <= e < LineEnd(s, q + 1)
    requires s[e] == ')'
    requires forall k :: e < k < LineEnd(s, q + 1) ==> s[k] != ')'
    requires s[q + 1..e] == value
    ensures FindFirst(TransferredRate(), s) == Some(value)
  {
    var pat := TransferredRate();
    assert s[e..e + 1] == [s[e]];
    assert RestMatches(pat, s, q, e);
    forall e': nat | RestMatches(pat, s, q, e') ensures e' <= e {
      LineEndMax(s, q + 1, e');
      assert s[e'] == s[e'..e' + 1][0];
    }
    var g := Group(pat, s, q, e);
    assert g == s[q + 1..e];
    FirstMatchIs(pat, s, p, q, e);
    assert FindFirst(pat, s) == Some(g);
  }

  /** A line `title`, whitespace, `value`, newline at the start of the output: the
      title's pattern finds `value`, whatever follows the line. */
  lemma LabelLineValue(title: string, pad: string, value: string, rest: string)
    requires forall k :: 0 <= k < |pad| ==> IsSpace(pad[k])
    requires value != [] && !IsSpace(value[0]) && '\n' !in value
    ensures FindFirst(LabelPattern(title), title + pad + value + "\n" + rest) == Some(value)
  {
    var s := title + pad + value + "\n" + rest;
    LabelLineLayout(title, pad, value, rest);
    LabelAtStart(title, s, |title| + |pad|, |title| + |pad| + |value|, value);
  }

  /** A title at the very start of the output, then padding, then a value that ends
      the line: the title's pattern finds the value. */
  lemma LabelAtStart(title: string, s: string, q: nat, n: nat, value: string)
    requires StartsAt(s, 0, title) && SkipSpaces(s, |title|) == q
    requires q <= |s| && LineEnd(s, q) == n && n < |s| && s[q..n] == value
    ensures FindFirst(LabelPattern(title), s) == Some(value)
  {
    LabelValueIsRestOfLine(title, s, 0);
  }

  /** Where the parts of a titled line sit: the title at the start, the value after the
      padding, the newline after the value. */
  lemma LabelLineLayout(title: string, pad: string, value: string, rest: string)
    requires forall k :: 0 <= k < |pad| ==> IsSpace(pad[k])
    requires value != [] && !IsSpace(value[0]) && '\n' !in value
    ensures var s := title + pad + value + "\n" + rest;
      var q, n := |title| + |pad|, |title| + |pad| + |value|;
      && StartsAt(s, 0, title)
      && SkipSpaces(s, |title|) == q
      && LineEnd(s, q) == n
      && n < |s|
      && s[q..n] == value
  {
    var s := title + pad + value + "\n" + rest;
    var q := |title| + |pad|;
    var n := q + |value|;
    assert s[0..|title|] == title;
    assert s[q] == value[0];
    SkipSpacesTo(s, |title|, q);
    forall k | q <= k < n ensures s[k] != '\n' {
      assert s[k] == value[k - q];
    }
    LineEndAt(s, q, n);
    assert s[q..n] == value;
  }

  /** The amount in general. A run of whitespace starts at `p` and ends at `q`; it opens
      the output, or it follows a non-blank and holds a newline (at `nl`), so that no
      match can start before it. No whitespace before `q` is followed by `transferred`,
      and `e` is the last whitespace on the line from `q` that is. Then the `\s*` of the
      first match swallows the whole run, newlines and indentation included, and the
      amount is the text `value` from `q` to `e`. */
  lemma AmountAfterBlankRun(s: string, p: nat, nl: nat, q: nat, e: nat, value: string)
    requires p <= |s| && q == SkipSpaces(s, p)
    requires p == 0 || (!IsSpace(s[p - 1]) && p <= nl < q && s[nl] == '\n')
    requires forall j: nat :: j < q ==> !TailAt(TransferredAmount().tail, s, j)
    requires q <= e <= LineEnd(s, q) && TailAt(TransferredAmount().tail, s, e)
    requires forall e': nat :: e < e' <= LineEnd(s, q) ==> !TailAt(TransferredAmount().tail, s, e')
    requires s[q..e] == value
    ensures FindFirst(TransferredAmount(), s) == Some(value)
  {
    assert StartsAt(s, p, "");
    AmountGroupEnd(s, q, e);
    NoAmountBeforeRun(s, p, nl, q);
    FirstMatchFrom(TransferredAmount(), s, p, q, e);
    assert Group(TransferredAmount(), s, q, e) == s[q..e];
  }

  /** On the line from `q`, the amount's group ends at the last whitespace followed by
      `transferred`. */
  lemma AmountGroupEnd(s: string, q: nat, e: nat)
    requires q <= |s| && q <= e <= LineEnd(s, q) && TailAt(TransferredAmount().tail, s, e)
    requires forall e': nat :: e < e' <= LineEnd(s, q) ==> !TailAt(TransferredAmount().tail, s, e')
    ensures RestMatches(TransferredAmount(), s, q, e)
    ensures forall e': nat :: RestMatches(TransferredAmount(), s, q, e') ==> e' <= e
  {
    assert StartsAt(s, q, "");
    forall e': nat | RestMatches(TransferredAmount(), s, q, e') ensures e' <= e {
      LineEndMax(s, q, e');
    }
  }

  /** No match of the amount pattern starts before a blank run that follows a non-blank
      and holds a newline, when no whitespace before the run's end is followed by
      `transferred`: the group cannot cross the newline, and `\s*` cannot cross the
      non-blank. */
  lemma NoAmountBeforeRun(s: string, p: nat, nl: nat, q: nat)
    requires p <= |s| && q == SkipSpaces(s, p)
    requires p == 0 || (!IsSpace(s[p - 1]) && p <= nl < q && s[nl] == '\n')
    requires forall j: nat :: j < q ==> !TailAt(TransferredAmount().tail, s, j)
    ensures forall p': nat, q': nat, e': nat :: p' < p ==> !IsMatch(TransferredAmount(), s, p', q', e')
  {
    forall p': nat, q': nat, e': nat | p' < p && p' <= q' <= e' <= |s|
      ensures !IsMatch(TransferredAmount(), s, p', q', e')
    {
      if e' < q {
        assert !TailAt(TransferredAmount().tail, s, e');
      } else if q' <= nl {
        assert !NoNewlineBetween(s, q', e');
      } else {
        assert !SpacesBetween(s, p', q');
      }
    }
  }

  /** The rate pattern finds something exactly when some `transferred` is followed by
      whitespace, a `(`, and later on the same line a `)`. */
  lemma TransferredRateFoundIff(s: string)
    ensures FindFirst(TransferredRate(), s).Some? <==>
      exists p: nat, q: nat, e: nat ::
        && StartsAt(s, p, "transferred") && p + 11 <= q < e < |s|
        && SpacesBetween(s, p + 11, q) && s[q] == '('
        && NoNewlineBetween(s, q + 1, e) && s[e] == ')'
  {
    forall p: nat, q: nat, e: nat
      ensures IsMatch(TransferredRate(), s, p, q, e) <==>
        && StartsAt(s, p, "transferred") && p + 11 <= q < e < |s|
        && SpacesBetween(s, p + 11, q) && s[q] == '('
        && NoNewlineBetween(s, q + 1, e) && s[e] == ')'
    {
      RateMatchChars(s, p, q, e);
    }
  }

  /** A match of the rate pattern, read character by character. */
  lemma RateMatchChars(s: string, p: nat, q: nat, e: nat)
    ensures IsMatch(TransferredRate(), s, p, q, e) <==>
      && StartsAt(s, p, "transferred") && p + 11 <= q < e < |s|
      && SpacesBetween(s, p + 11, q) && s[q] == '('
      && NoNewlineBetween(s, q + 1, e) && s[e] == ')'
  {
    if q < |s| {
      StartsAtChar(s, q, "(", 0);
      assert s[q] == '(' ==> s[q..q + 1] == "(";
    }
    if e < |s| {
      StartsAtChar(s, e, ")", 0);
      assert s[e] == ')' ==> s[e..e + 1] == ")";
    }
  }

  /** The first line of `amount + " transferred (" + rate + ")\n" + rest`, when neither
      part holds a `t` or a newline and the next line does not start with a `t`. */
  predicate TransferredLineParts(amount: string, rate: string, rest: string) {
    && amount != [] && !IsSpace(amount[0])
    && 't' !in amount && '\n' !in amount
    && 't' !in rate && '\n' !in rate
    && (rest == [] || rest[0] != 't')
  }

  /** Each `t` in `text` is followed, within it, by a character other than `r`. This is
      stronger than holding no `transferred`: `text` holds no `tr` and does not end in
      `t`, so no `transferred` can start in it even when more text follows. */
  predicate NoTrIn(text: string) {
    forall k :: 0 <= k < |text| && text[k] == 't' ==> k + 1 < |text| && text[k + 1] != 'r'
  }

  /** Two texts without a `tr` that end in no `t` join into one such text. */
  lemma NoTrInJoin(x: string, y: string)
    requires NoTrIn(x) && NoTrIn(y)
    ensures NoTrIn(x + y)
  {
    var xy := x + y;
    forall k | 0 <= k < |xy| && xy[k] == 't' ensures k + 1 < |xy| && xy[k + 1] != 'r' {
      if k < |x| {
        assert xy[k] == x[k];
      } else {
        assert xy[k] == y[k - |x|];
      }
    }
  }

  /** What comes before the memory line in sysbench's output: earlier `text` that holds
      no `tr` and ends in neither a `t` nor whitespace (so no `transferred` starts in it),
      then a `blank` run (the ends of lines, blank lines, indentation), which holds a
      newline unless nothing comes before it. */
  predicate Preamble(text: string, blank: string) {
    && NoTrIn(text)
    && (text == [] || !IsSpace(text[|text| - 1]))
    && (forall k :: 0 <= k < |blank| ==> IsSpace(blank[k]))
    && (text == [] || '\n' in blank)
  }

  /** On sysbench's memory line `<amount> transferred (<rate>)`, after the earlier output,
      blank lines and indentation, the amount pattern finds the amount: its `\s*` swallows
      the newlines and the indentation before it. */
  lemma TransferredLineAmount(text: string, blank: string, amount: string, rate: string, rest: string)
    requires Preamble(text, blank) && TransferredLineParts(amount, rate, rest)
    ensures FindFirst(TransferredAmount(), text + blank + amount + " transferred (" + rate + ")\n" + rest) == Some(amount)
  {
    MemoryLineChars(text, blank, amount, rate, rest);
    AmountOnMemoryLine(text + blank + amount + " transferred (" + rate + ")\n" + rest, text, blank, amount, rate, rest);
  }

  /** The amount, on any output laid out as a preamble and then the memory line. */
  lemma AmountOnMemoryLine(s: string, text: string, blank: string, amount: string, rate: string, rest: string)
    requires Preamble(text, blank) && TransferredLineParts(amount, rate, rest)
    requires PreambleAt(s, text, blank) && MemoryLineAt(s, |text| + |blank|, amount, rate, rest)
    ensures FindFirst(TransferredAmount(), s) == Some(amount)
  {
    var o := |text| + |blank|;
    var nl := AmountLayout(s, text, blank, amount, rate, rest);
    AmountTailLayout(s, text, blank, amount, rate, rest);
    AmountAfterBlankRun(s, |text|, nl, o, o + |amount|, amount);
  }

  /** On sysbench's memory line `<amount> transferred (<rate>)`, after the earlier output,
      blank lines and indentation, the rate pattern finds the rate. */
  lemma TransferredLineRate(text: string, blank: string, amount: string, rate: string, rest: string)
    requires Preamble(text, blank) && TransferredLineParts(amount, rate, rest)
    ensures FindFirst(TransferredRate(), text + blank + amount + " transferred (" + rate + ")\n" + rest) == Some(rate)
  {
    var s := text + blank + amount + " transferred (" + rate + ")\n" + rest;
    var a := |text| + |blank| + |amount|;
    MemoryLineChars(text, blank, amount, rate, rest);
    RateLayout(s, text, blank, amount, rate, rest);
    TransferredRateIsParenthesized(s, a + 1, a + 13, a + 14 + |rate|, rate);
  }

  /** `s` starts with `text` and then `blank`, read character by character. */
  predicate PreambleAt(s: string, text: string, blank: string) {
    && |text| + |blank| <= |s|
    && (forall k :: 0 <= k < |text| ==> s[k] == text[k])
    && (forall k :: 0 <= k < |blank| ==> s[|text| + k] == blank[k])
  }

  /** From position `o` on, `s` is the memory line `amount + " transferred (" + rate +
      ")\n" + rest`, read character by character. */
  predicate MemoryLineAt(s: string, o: nat, amount: string, rate: string, rest: string) {
    var a, e := o + |amount|, o + |amount| + 14 + |rate|;
    && |s| == e + 2 + |rest|
    && (forall k :: 0 <= k < |amount| ==> s[o + k] == amount[k])
    && s[a] == ' ' && s[a + 1..a + 12] == "transferred" && s[a + 12] == ' ' && s[a + 13] == '('
    && (forall k :: 0 <= k < |rate| ==> s[a + 14 + k] == rate[k])
    && s[e] == ')' && s[e + 1] == '\n'
    && (forall k :: 0 <= k < |rest| ==> s[e + 2 + k] == rest[k])
  }

  /** The output around the memory line, read character by character. */
  lemma MemoryLineChars(text: string, blank: string, amount: string, rate: string, rest: string)
    ensures var s := text + blank + amount + " transferred (" + rate + ")\n" + rest;
      PreambleAt(s, text, blank) && MemoryLineAt(s, |text| + |blank|, amount, rate, rest)
  {
    PreambleChars(text, blank, amount + " transferred (" + rate + ")\n" + rest);
    LineChars(text + blank, amount, rate, rest);
  }

  /** The preamble, read character by character. */
  lemma PreambleChars(text: string, blank: string, line: string)
    ensures PreambleAt(text + blank + line, text, blank)
  {
    var s := text + blank + line;
    forall k | 0 <= k < |text| ensures s[k] == text[k] {
    }
    forall k | 0 <= k < |blank| ensures s[|text| + k] == blank[k] {
    }
  }

  /** The memory line after any `pre`, read character by character. */
  lemma LineChars(pre: string, amount: string, rate: string, rest: string)
    ensures MemoryLineAt(pre + amount + " transferred (" + rate + ")\n" + rest, |pre|, amount, rate, rest)
  {
    var mid := " transferred (";
    var s := pre + amount + mid + rate + ")\n" + rest;
    var o := |pre|;
    var a, e := o + |amount|, o + |amount| + 14 + |rate|;
    forall k | 0 <= k < |amount| ensures s[o + k] == amount[k] {
    }
    assert s[a..a + 14] == mid;
    assert s[a] == mid[0] && s[a + 12] == mid[12] && s[a + 13] == mid[13];
    assert s[a + 1..a + 12] == mid[1..12] == "transferred";
    forall k | 0 <= k < |rate| ensures s[a + 14 + k] == rate[k] {
    }
    assert s[e] == ')' && s[e + 1] == '\n';
    forall k | 0 <= k < |rest| ensures s[e + 2 + k] == rest[k] {
    }
  }

  /** The memory line runs to the newline after `)`. */
  lemma MemoryLineEnd(s: string, o: nat, amount: string, rate: string, rest: string, i: nat)
    requires TransferredLineParts(amount, rate, rest) && MemoryLineAt(s, o, amount, rate, rest)
    requires o <= i <= o + |amount| + 14
    ensures LineEnd(s, i) == o + |amount| + 15 + |rate|
  {
    var a, e := o + |amount|, o + |amount| + 14 + |rate|;
    forall k | i <= k < e + 1 ensures s[k] != '\n' {
      if k < a {
        assert s[k] == amount[k - o];
        assert amount[k - o] in amount;
      } else if a + 1 <= k < a + 12 {
        assert s[k] == s[a + 1..a + 12][k - a - 1];
      } else if a + 14 <= k < e {
        assert s[k] == rate[k - a - 14];
        assert rate[k - a - 14] in rate;
      }
    }
    LineEndAt(s, i, e + 1);
  }

  /** Up to the space before it, the first `transferred` of the output is the one on the
      memory line. */
  lemma NoTransferredBefore(s: string, text: string, blank: string, amount: string, rate: string, rest: string)
    requires Preamble(text, blank) && TransferredLineParts(amount, rate, rest)
    requires PreambleAt(s, text, blank) && MemoryLineAt(s, |text| + |blank|, amount, rate, rest)
    ensures forall p: nat :: p <= |text| + |blank| + |amount| ==> !StartsAt(s, p, "transferred")
  {
    var o := |text| + |blank|;
    forall p: nat | p <= o + |amount| ensures !StartsAt(s, p, "transferred") {
      StartsAtChar(s, p, "transferred", 0);
      StartsAtChar(s, p, "transferred", 1);
      if p < |text| {
        assert s[p] == text[p];
        if text[p] == 't' {
          assert s[p + 1] == text[p + 1];
        }
      } else if p < o {
        assert s[p] == blank[p - |text|];
      } else if p < o + |amount| {
        assert s[p] == amount[p - o];
        assert amount[p - o] in amount;
      }
    }
  }

  /** Where the amount sits: after a blank run from the end of the earlier text. */
  lemma AmountLayout(s: string, text: string, blank: string, amount: string, rate: string, rest: string)
    returns (nl: nat)
    requires Preamble(text, blank) && TransferredLineParts(amount, rate, rest)
    requires PreambleAt(s, text, blank) && MemoryLineAt(s, |text| + |blank|, amount, rate, rest)
    ensures var p, o, a := |text|, |text| + |blank|, |text| + |blank| + |amount|;
      && o == SkipSpaces(s, p)
      && (p == 0 || (!IsSpace(s[p - 1]) && p <= nl < o && s[nl] == '\n'))
      && s[o..a] == amount
  {
    var p, o := |text|, |text| + |blank|;
    forall k | p <= k < o ensures IsSpace(s[k]) {
      assert s[k] == blank[k - p];
    }
    assert s[o] == amount[0];
    SkipSpacesTo(s, p, o);
    nl := 0;
    if p > 0 {
      assert s[p - 1] == text[p - 1];
      var i :| 0 <= i < |blank| && blank[i] == '\n';
      nl := p + i;
    }
    AmountSlice(s, o, amount, rate, rest);
  }

  /** The amount is the slice of the memory line before its first space. */
  lemma AmountSlice(s: string, o: nat, amount: string, rate: string, rest: string)
    requires MemoryLineAt(s, o, amount, rate, rest)
    ensures s[o..o + |amount|] == amount
  {
  }

  /** The space after the amount is the output's first whitespace followed by
      `transferred`, and the only one on the memory line. */
  lemma AmountTailLayout(s: string, text: string, blank: string, amount: string, rate: string, rest: string)
    requires Preamble(text, blank) && TransferredLineParts(amount, rate, rest)
    requires PreambleAt(s, text, blank) && MemoryLineAt(s, |text| + |blank|, amount, rate, rest)
    ensures var o, a := |text| + |blank|, |text| + |blank| + |amount|;
      && (forall j: nat :: j < o ==> !TailAt(TransferredAmount().tail, s, j))
      && o <= a <= LineEnd(s, o) && TailAt(TransferredAmount().tail, s, a)
      && (forall e': nat :: a < e' <= LineEnd(s, o) ==> !TailAt(TransferredAmount().tail, s, e'))
  {
    var o := |text| + |blank|;
    var a, e := o + |amount|, o + |amount| + 14 + |rate|;
    MemoryLineEnd(s, o, amount, rate, rest, o);
    NoTransferredBefore(s, text, blank, amount, rate, rest);
    NoTAfterTransferred(s, o, amount, rate, rest);
    forall e': nat | a < e' <= e + 1 ensures !TailAt(TransferredAmount().tail, s, e') {
      StartsAtChar(s, e' + 1, "transferred", 0);
    }
  }

  /** After the `t` of its `transferred`, the memory line holds no `t`, and neither does
      the first character after it. */
  lemma NoTAfterTransferred(s: string, o: nat, amount: string, rate: string, rest: string)
    requires TransferredLineParts(amount, rate, rest) && MemoryLineAt(s, o, amount, rate, rest)
    ensures var a, e := o + |amount|, o + |amount| + 14 + |rate|;
      forall k :: a + 1 < k < |s| && k <= e + 2 ==> s[k] != 't'
  {
    var a, e := o + |amount|, o + |amount| + 14 + |rate|;
    forall k | a + 1 < k < |s| && k <= e + 2 ensures s[k] != 't' {
      if k < a + 12 {
        assert s[k] == s[a + 1..a + 12][k - a - 1];
      } else if a + 14 <= k < e {
        assert s[k] == rate[k - a - 14];
        assert rate[k - a - 14] in rate;
      } else if k == e + 2 {
        assert s[k] == rest[0];
      }
    }
  }

  /** Where the rate sits: after the output's first `transferred`, one space and `(`, up
      to the `)` that ends the memory line. */
  lemma RateLayout(s: string, text: string, blank: string, amount: string, rate: string, rest: string)
    requires Preamble(text, blank) && TransferredLineParts(amount, rate, rest)
    requires PreambleAt(s, text, blank) && MemoryLineAt(s, |text| + |blank|, amount, rate, rest)
    ensures var p, e := |text| + |blank| + |amount| + 1, |text| + |blank| + |amount| + 14 + |rate|;
      && StartsAt(s, p, "transferred")
      && (forall p': nat :: p' < p ==> !StartsAt(s, p', "transferred"))
      && SkipSpaces(s, p + 11) == p + 12
      && StartsAt(s, p + 12, "(")
      && p + 13 <= e && LineEnd(s, p + 13) == e + 1
      && s[e] == ')'
      && s[p + 13..e] == rate
  {
    var o := |text| + |blank|;
    var a, e := o + |amount|, o + |amount| + 14 + |rate|;
    assert s[a + 13..a + 14] == "(";
    NoTransferredBefore(s, text, blank, amount, rate, rest);
    SkipSpacesTo(s, a + 12, a + 13);
    MemoryLineEnd(s, o, amount, rate, rest, a + 14);
    assert s[a + 14..e] == rate;
  }
}
