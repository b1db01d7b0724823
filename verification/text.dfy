/** The string operations the core relies on, written out the way the
    JavaScript runtime performs them: ASCII lower-casing, `trim`,
    `parseInt` on a decimal string, `Number.prototype.toString`, and
    `String.prototype.replace` with a string pattern. */
module Text {
  import opened Wrappers

  // ---------------------------------------------------------------------
  // Lower-casing
  // ---------------------------------------------------------------------

  predicate IsUpper(c: char) {
    'A' <= c <= 'Z'
  }

  function LowerChar(c: char): char {
    if IsUpper(c) then (c as int + 32) as char else c
  }

  /** No character of `s` is an upper-case letter. */
  predicate IsLower(s: string) {
    forall i :: 0 <= i < |s| ==> !IsUpper(s[i])
  }

  /** `String.prototype.toLowerCase`, restricted to the ASCII letters that
      account addresses are written with. */
  function ToLower(s: string): (r: string)
    ensures |r| == |s|
    ensures IsLower(r)
    ensures forall i :: 0 <= i < |s| && !IsUpper(s[i]) ==> r[i] == s[i]
    ensures forall i :: 0 <= i < |s| && IsUpper(s[i]) ==> r[i] as int == s[i] as int + 32
  {
    seq(|s|, i requires 0 <= i < |s| => LowerChar(s[i]))
  }

  /** Lower-casing a string that is already lower case changes nothing. */
  lemma ToLowerOfLower(s: string)
    requires IsLower(s)
    ensures ToLower(s) == s
  {
  }

  /** Lower-casing is idempotent, so comparing lower-cased values is stable. */
  lemma ToLowerIdempotent(s: string)
    ensures ToLower(ToLower(s)) == ToLower(s)
  {
    ToLowerOfLower(ToLower(s));
  }

  // ---------------------------------------------------------------------
  // trim
  // ---------------------------------------------------------------------

  /** The characters `String.prototype.trim` strips: ECMAScript WhiteSpace
      (tab, vertical tab, form feed, space, no-break space, byte order mark
      and the space separators) and LineTerminator. */
  predicate IsWhitespace(c: char) {
    || c == '\t' || c == '\n' || c == '\U{B}' || c == '\U{C}' || c == '\r'
    || c == ' ' || c == '\U{A0}' || c == '\U{1680}'
    || ('\U{2000}' <= c <= '\U{200A}')
    || c == '\U{2028}' || c == '\U{2029}' || c == '\U{202F}' || c == '\U{205F}'
    || c == '\U{3000}' || c == '\U{FEFF}'
  }

  predicate IsBlank(s: string) {
    forall i :: 0 <= i < |s| ==> IsWhitespace(s[i])
  }

  /** Drops leading whitespace: the result is the suffix of `s` that starts
      at its first non-whitespace character. */
  function TrimStart(s: string): (r: string)
    ensures |r| <= |s| && r == s[|s| - |r|..]
    ensures forall i :: 0 <= i < |s| - |r| ==> IsWhitespace(s[i])
    ensures r == [] || !IsWhitespace(r[0])
  {
    if |s| > 0 && IsWhitespace(s[0]) then TrimStart(s[1..]) else s
  }

  /** Drops trailing whitespace: the result is the prefix of `s` that ends
      at its last non-whitespace character. */
  function TrimEnd(s: string): (r: string)
    ensures |r| <= |s| && r == s[..|r|]
    ensures forall i :: |r| <= i < |s| ==> IsWhitespace(s[i])
    ensures r == [] || !IsWhitespace(r[|r| - 1])
  {
    if |s| > 0 && IsWhitespace(s[|s| - 1]) then TrimEnd(s[..|s| - 1]) else s
  }

  /** `String.prototype.trim`: `s` with its leading and trailing whitespace
      removed, that is, a stretch of `s` between two blank runs that neither
      starts nor ends with whitespace. */
  function Trim(s: string): (r: string)
    ensures |r| <= |s|
    ensures exists a :: 0 <= a <= |s| - |r| && r == s[a..a + |r|] && IsBlank(s[..a]) && IsBlank(s[a + |r|..])
    ensures r == [] || (!IsWhitespace(r[0]) && !IsWhitespace(r[|r| - 1]))
    ensures r == [] <==> IsBlank(s)
  {
    var t := TrimStart(s);
    LeadingBlank(s);
    TrailingBlank(t);
    BetweenBlanks(s, t, TrimEnd(t));
    TrimEnd(t)
  }

  /** Cutting a blank run off the front of `s`, leaving `t`, and then a
      blank run off the back of `t`, leaving `u`, leaves a stretch of `s`
      between two blank runs; nothing is left only when `s` is blank. */
  lemma BetweenBlanks(s: string, t: string, u: string)
    requires |t| <= |s| && t == s[|s| - |t|..] && IsBlank(s[..|s| - |t|])
    requires |u| <= |t| && u == t[..|u|] && IsBlank(t[|u|..])
    requires u == [] || (!IsWhitespace(u[0]) && !IsWhitespace(u[|u| - 1]))
    ensures exists a :: 0 <= a <= |s| - |u| && u == s[a..a + |u|] && IsBlank(s[..a]) && IsBlank(s[a + |u|..])
    ensures u == [] <==> IsBlank(s)
  {
    var a := |s| - |t|;
    CutBothEnds(s, t, u);
    assert IsBlank(s[..a]) && IsBlank(s[a + |u|..]);
    if u == [] {
      BlankConcat(s[..a], s[a..]);
    } else {
      assert s[a] == u[0];
    }
  }

  /** A prefix `u` of a suffix `t` of `s` is a stretch of `s`, and what
      follows `u` in `t` is what follows that stretch in `s`. */
  lemma CutBothEnds<T>(s: seq<T>, t: seq<T>, u: seq<T>)
    requires |t| <= |s| && t == s[|s| - |t|..]
    requires |u| <= |t| && u == t[..|u|]
    ensures u == s[|s| - |t|..|s| - |t| + |u|]
    ensures t[|u|..] == s[|s| - |t| + |u|..]
    ensures s == s[..|s| - |t|] + t
  {
  }

  /** The whitespace `TrimStart` drops is a blank run. */
  lemma LeadingBlank(s: string)
    ensures IsBlank(s[..|s| - |TrimStart(s)|])
  {
  }

  /** The whitespace `TrimEnd` drops is a blank run. */
  lemma TrailingBlank(t: string)
    ensures IsBlank(t[|TrimEnd(t)|..])
  {
    var u := TrimEnd(t);
    forall i | 0 <= i < |t| - |u|
      ensures IsWhitespace(t[|u|..][i])
    {
      assert t[|u|..][i] == t[|u| + i];
    }
  }

  /** Two blank runs side by side are blank. */
  lemma BlankConcat(x: string, y: string)
    requires IsBlank(x) && IsBlank(y)
    ensures IsBlank(x + y)
  {
  }

  /** `s.trim() === ''` holds exactly when every character of `s` is
      whitespace. */
  lemma TrimEmptyIffBlank(s: string)
    ensures Trim(s) == [] <==> IsBlank(s)
  {
    var t := TrimStart(s);
    if Trim(s) == [] {
      forall i | 0 <= i < |s|
        ensures IsWhitespace(s[i])
      {
        assert t == [];
      }
    }
  }

  // ---------------------------------------------------------------------
  // Decimal numerals: toString and parseInt
  // ---------------------------------------------------------------------

  predicate IsDigit(c: char) {
    '0' <= c <= '9'
  }

  predicate AllDigits(s: string) {
    forall i :: 0 <= i < |s| ==> IsDigit(s[i])
  }

  function DigitChar(d: nat): char
    requires d < 10
  {
    ('0' as int + d) as char
  }

  function DigitValue(c: char): nat
    requires IsDigit(c)
  {
    c as int - '0' as int
  }

  /** The decimal numeral of `n` without leading zeros, as `toString()`
      writes an unsigned integer. */
  function Decimal(n: nat): (r: string)
    ensures |r| >= 1 && AllDigits(r)
    ensures r[0] != '0' || n == 0
  {
    if n < 10 then [DigitChar(n)] else Decimal(n / 10) + [DigitChar(n % 10)]
  }

  /** The number a run of decimal digits denotes. */
  function DigitsValue(ds: string): nat
    requires AllDigits(ds)
  {
    if ds == [] then 0
    else DigitsValue(ds[..|ds| - 1]) * 10 + DigitValue(ds[|ds| - 1])
  }

  /** The longest prefix of `s` made of decimal digits. */
  function LeadingDigits(s: string): (r: string)
    ensures |r| <= |s| && r == s[..|r|]
    ensures AllDigits(r)
    ensures |r| == |s| || !IsDigit(s[|r|])
  {
    if |s| > 0 && IsDigit(s[0]) then [s[0]] + LeadingDigits(s[1..]) else []
  }

  /** `parseInt(s)` with the default radix on a string without leading
      whitespace: an optional sign followed by the digits up to the first
      non-digit; no digit at all gives `NaN`, modelled as `None`. */
  function ParseInt(s: string): (r: Option<int>)
    ensures r.None? <==> LeadingDigits(if |s| > 0 && (s[0] == '-' || s[0] == '+') then s[1..] else s) == []
    ensures r.Some? && |s| > 0 && s[0] == '-' ==> r.value <= 0
    ensures r.Some? && (|s| == 0 || s[0] != '-') ==> r.value >= 0
    ensures AllDigits(s) && s != [] ==> r == Some(DigitsValue(s))
  {
    assert AllDigits(s) ==> LeadingDigits(s) == s by {
      if AllDigits(s) {
        LeadingDigitsOfDigits(s);
      }
    }
    var negative := |s| > 0 && s[0] == '-';
    var rest := if |s| > 0 && (s[0] == '-' || s[0] == '+') then s[1..] else s;
    var ds := LeadingDigits(rest);
    if ds == [] then None
    else
      var magnitude: int := DigitsValue(ds);
      Some(if negative then -magnitude else magnitude)
  }

  lemma {:induction false} DigitsValueOfDecimal(n: nat)
    ensures DigitsValue(Decimal(n)) == n
  {
    if n >= 10 {
      var d := Decimal(n);
      assert d[..|d| - 1] == Decimal(n / 10);
      DigitsValueOfDecimal(n / 10);
    }
  }

  lemma {:induction false} LeadingDigitsOfDigits(s: string)
    requires AllDigits(s)
    ensures LeadingDigits(s) == s
  {
    if |s| > 0 {
      LeadingDigitsOfDigits(s[1..]);
      assert [s[0]] + s[1..] == s;
    }
  }

  /** `parseInt(n.toString()) === n`: a key sent as a decimal path segment
      comes back as the same key. */
  lemma ParseDecimal(n: nat)
    ensures ParseInt(Decimal(n)) == Some(n)
  {
    DigitsValueOfDecimal(n);
  }

  // ---------------------------------------------------------------------
  // First-occurrence search and String.prototype.replace
  // ---------------------------------------------------------------------

  predicate OccursAt(s: string, pat: string, i: int) {
    0 <= i && i + |pat| <= |s| && s[i..i + |pat|] == pat
  }

  /** The first position at or after `from` where `pat` occurs in `s`. */
  function IndexOfFrom(s: string, pat: string, from: nat): (r: Option<nat>)
    requires from <= |s|
    ensures r.Some? ==> from <= r.value && OccursAt(s, pat, r.value)
    ensures r.Some? ==> forall j :: from <= j < r.value ==> !OccursAt(s, pat, j)
    ensures r.None? ==> forall j :: from <= j ==> !OccursAt(s, pat, j)
    decreases |s| - from
  {
    if from + |pat| > |s| then None
    else if s[from..from + |pat|] == pat then Some(from)
    else if from == |s| then None
    else IndexOfFrom(s, pat, from + 1)
  }

  /** `s.indexOf(pat)`, with `-1` modelled as `None`. */
  function IndexOf(s: string, pat: string): Option<nat> {
    IndexOfFrom(s, pat, 0)
  }

  /** The characters that, after a `$`, form a replacement pattern when the
      search pattern is a string (there are no capture groups to refer to). */
  predicate IsPatternChar(c: char) {
    c == '$' || c == '&' || c == '`' || c == '\''
  }

  /** What a replacement pattern `$c` stands for: `$$` is a dollar sign,
      `$&` the matched text, `` $` `` the text before the match and `$'` the
      text after it. */
  function Substitution(c: char, matched: string, before: string, after: string): string
    requires IsPatternChar(c)
  {
    if c == '$' then "$"
    else if c == '&' then matched
    else if c == '`' then before
    else after
  }

  /** Whether a replacement string starts with one of the four patterns. */
  predicate StartsPattern(rep: string) {
    |rep| >= 2 && rep[0] == '$' && IsPatternChar(rep[1])
  }

  /** The expansion `String.prototype.replace` applies to its replacement
      string; every `$` that does not start a pattern is kept as written. */
  function ExpandReplacement(rep: string, matched: string, before: string, after: string): (r: string)
    ensures NoDollar(rep) ==> r == rep
    ensures !StartsPattern(rep) && |rep| > 0 ==> |r| > 0 && r[0] == rep[0]
    decreases |rep|
  {
    if |rep| == 0 then []
    else if StartsPattern(rep) then
      Substitution(rep[1], matched, before, after) + ExpandReplacement(rep[2..], matched, before, after)
    else
      assert NoDollar(rep) ==> NoDollar(rep[1..]) && [rep[0]] + rep[1..] == rep;
      [rep[0]] + ExpandReplacement(rep[1..], matched, before, after)
  }

  predicate NoDollar(s: string) {
    '$' !in s
  }

  /** `$&` between two dollar-free parts expands to the matched text. */
  lemma ExpandMatchToken(a: string, b: string, matched: string, before: string, after: string)
    requires NoDollar(a) && NoDollar(b)
    ensures ExpandReplacement(a + "$&" + b, matched, before, after) == a + matched + b
  {
    var token := "$&";
    assert (a + token)[|a + token| - 1] == '&';
    ExpandKeepsLiteralTail(a + token, b, matched, before, after);
    ExpandLiteralHead(a, token, matched, before, after);
    assert token[2..] == [];
    ExpandPattern(token, matched, before, after);
  }

  /** A dollar-free head is copied through, whatever follows it. */
  lemma {:induction false} ExpandLiteralHead(a: string, t: string, matched: string, before: string, after: string)
    requires NoDollar(a)
    ensures ExpandReplacement(a + t, matched, before, after) == a + ExpandReplacement(t, matched, before, after)
  {
    var rep := a + t;
    if |a| == 0 {
      assert rep == t;
    } else {
      assert rep[0] == a[0] != '$';
      assert rep[1..] == a[1..] + t;
      ExpandPlain(rep, matched, before, after);
      ExpandLiteralHead(a[1..], t, matched, before, after);
      AppendAssoc([a[0]], a[1..], ExpandReplacement(t, matched, before, after));
      assert [a[0]] + a[1..] == a;
    }
  }

  /** `s.replace(pat, rep)` for a string `pat`: only the first occurrence is
      replaced, by `rep` after pattern expansion; without an occurrence the
      string is returned unchanged. */
  function ReplaceFirst(s: string, pat: string, rep: string): (r: string)
    ensures IndexOf(s, pat).None? ==> r == s
    ensures IndexOf(s, pat).Some? ==>
      var i := IndexOf(s, pat).value;
      var tail := s[i + |pat|..];
      && |r| >= i + |tail| && r[..i] == s[..i] && r[|r| - |tail|..] == tail
    ensures IndexOf(s, pat).Some? && NoDollar(rep) ==>
      var i := IndexOf(s, pat).value;
      r == s[..i] + rep + s[i + |pat|..]
  {
    match IndexOf(s, pat)
    case None => s
    case Some(i) =>
      s[..i] + ExpandReplacement(rep, pat, s[..i], s[i + |pat|..]) + s[i + |pat|..]
  }

  /** Inserts `text` verbatim in front of the first occurrence of `pat`. */
  function InsertBeforeFirst(s: string, pat: string, text: string): (r: string)
    ensures IndexOf(s, pat).None? ==> r == s
    ensures IndexOf(s, pat).Some? ==>
      var i := IndexOf(s, pat).value;
      |r| == |s| + |text| && r[..i] == s[..i] && r[i..i + |text|] == text && r[i + |text|..] == s[i..]
  {
    match IndexOf(s, pat)
    case None => s
    case Some(i) => s[..i] + text + s[i..]
  }

  /** Replacing the first occurrence of `pat` by `text + pat` is inserting
      `text` in front of it, provided neither contains a `$`. */
  lemma ReplaceIsInsert(s: string, pat: string, text: string)
    requires NoDollar(text) && NoDollar(pat)
    ensures ReplaceFirst(s, pat, text + pat) == InsertBeforeFirst(s, pat, text)
  {
    if IndexOf(s, pat).Some? {
      var i := IndexOf(s, pat).value;
      var before, after := s[..i], s[i + |pat|..];
      NoDollarConcat(text, pat);
      ReplaceAt(s, pat, text + pat, i);
      SplitAtOccurrence(s, pat, i);
      assert before + (text + pat) + after == before + text + (pat + after);
    }
  }

  /** The shape of `ReplaceFirst` at the first occurrence `i`. */
  lemma ReplaceAt(s: string, pat: string, rep: string, i: nat)
    requires IndexOf(s, pat) == Some(i)
    ensures ReplaceFirst(s, pat, rep)
      == s[..i] + ExpandReplacement(rep, pat, s[..i], s[i + |pat|..]) + s[i + |pat|..]
  {
  }

  /** Replacing the first `pat` by `a + pat`, where `pat` has no `$` and
      `a` does not end in one, puts the expansion of `a` in front of the
      occurrence and keeps everything else. */
  lemma ReplaceInsertsExpansion(s: string, pat: string, a: string)
    requires NoDollar(pat) && (a == [] || a[|a| - 1] != '$')
    requires IndexOf(s, pat).Some?
    ensures var i := IndexOf(s, pat).value;
      ReplaceFirst(s, pat, a + pat) == s[..i] + ExpandReplacement(a, pat, s[..i], s[i + |pat|..]) + s[i..]
  {
    var i := IndexOf(s, pat).value;
    var before, after := s[..i], s[i + |pat|..];
    ReplaceAt(s, pat, a + pat, i);
    ExpandKeepsLiteralTail(a, pat, pat, before, after);
    SplitAtOccurrence(s, pat, i);
    AppendShift(before, ExpandReplacement(a, pat, before, after), pat, after);
  }

  /** An occurrence moves along with the text it sits in. */
  lemma OccurrenceMoves(s: string, r: string, pat: string, i: nat, j: nat)
    requires OccursAt(s, pat, i)
    requires j <= |r| && |r| - j == |s| - i && r[j..] == s[i..]
    ensures OccursAt(r, pat, j)
  {
    assert r[j..j + |pat|] == r[j..][..|pat|];
    assert s[i..i + |pat|] == s[i..][..|pat|];
  }

  lemma AppendShift(p: string, x: string, y: string, q: string)
    ensures p + (x + y) + q == p + x + (y + q)
  {
  }

  lemma AppendRegroup(p: string, x: string, y: string, z: string, q: string)
    ensures p + (x + y + z) + q == p + x + y + z + q
  {
  }

  /** The three parts of a concatenation can be read back by slicing. */
  lemma Sandwich(p: string, x: string, q: string)
    ensures var r := p + x + q;
      |r| == |p| + |x| + |q| && r[..|p|] == p && r[|p|..|p| + |x|] == x && r[|p| + |x|..] == q
  {
  }

  lemma NoDollarConcat(a: string, b: string)
    requires NoDollar(a) && NoDollar(b)
    ensures NoDollar(a + b)
  {
  }

  lemma SplitAtOccurrence(s: string, pat: string, i: int)
    requires OccursAt(s, pat, i)
    ensures s[i..] == pat + s[i + |pat|..]
  {
  }

  /** Expanding `a + b` where `b` has no `$` and `a` does not end in one
      expands `a` alone and keeps `b` verbatim. */
  lemma {:induction false} ExpandKeepsLiteralTail(a: string, b: string, matched: string, before: string, after: string)
    requires NoDollar(b)
    requires a == [] || a[|a| - 1] != '$'
    ensures ExpandReplacement(a + b, matched, before, after) == ExpandReplacement(a, matched, before, after) + b
    decreases |a|
  {
    var ab := a + b;
    if |a| == 0 {
      assert ab == b;
    } else if StartsPattern(a) {
      StartsPatternOfConcat(a, b);
      var rest := a[2..];
      assert ab[2..] == rest + b;
      ExpandKeepsLiteralTail(rest, b, matched, before, after);
      ExpandPattern(ab, matched, before, after);
      ExpandPattern(a, matched, before, after);
      AppendAssoc(Substitution(a[1], matched, before, after), ExpandReplacement(rest, matched, before, after), b);
    } else {
      StartsPatternOfConcat(a, b);
      var rest := a[1..];
      assert ab[1..] == rest + b;
      ExpandKeepsLiteralTail(rest, b, matched, before, after);
      ExpandPlain(ab, matched, before, after);
      ExpandPlain(a, matched, before, after);
      AppendAssoc([a[0]], ExpandReplacement(rest, matched, before, after), b);
    }
  }

  lemma ExpandPattern(rep: string, matched: string, before: string, after: string)
    requires StartsPattern(rep)
    ensures ExpandReplacement(rep, matched, before, after)
      == Substitution(rep[1], matched, before, after) + ExpandReplacement(rep[2..], matched, before, after)
  {
  }

  lemma ExpandPlain(rep: string, matched: string, before: string, after: string)
    requires |rep| > 0 && !StartsPattern(rep)
    ensures ExpandReplacement(rep, matched, before, after) == [rep[0]] + ExpandReplacement(rep[1..], matched, before, after)
  {
  }

  lemma AppendAssoc<T>(x: seq<T>, y: seq<T>, z: seq<T>)
    ensures x + (y + z) == (x + y) + z
  {
  }

  /** Appending to a string that does not end in `$` leaves its first
      token as it was. */
  lemma StartsPatternOfConcat(a: string, b: string)
    requires |a| > 0 && a[|a| - 1] != '$'
    ensures StartsPattern(a + b) == StartsPattern(a)
    ensures (a + b)[0] == a[0]
    ensures StartsPattern(a) ==> (a + b)[1] == a[1] && |a| >= 2
    ensures var k := if StartsPattern(a) then 2 else 1;
      k <= |a| && (a[k..] == [] || a[k..][|a[k..]| - 1] == a[|a| - 1])
  {
  }

}
