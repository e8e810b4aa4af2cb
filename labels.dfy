/**
 * The label cleaner applied to both sheets:
 * `re.sub(r'^(?:[A-Za-z]\d+\s*)+', '', str(x)).strip()`.
 * A leading run of article-prefix tokens (one ASCII letter, one or more digits,
 * optional whitespace) is removed, then surrounding whitespace is trimmed.
 * Positions are indexes into the label, so that the greedy scan and the
 * reference automaton below read the same string.
 */
module Labels {

  predicate IsAsciiLetter(c: char) {
    'A' <= c <= 'Z' || 'a' <= c <= 'z'
  }

  /** `\d`, restricted to the ASCII digits. */
  predicate IsDigit(c: char) {
    '0' <= c <= '9'
  }

  /** Python's whitespace (`str.isspace`), which is both what `\s` matches and what `strip()` removes. */
  predicate IsSpace(c: char) {
    var n := c as int;
    || 9 <= n <= 13 || 28 <= n <= 32 || n == 0x85 || n == 0xA0 || n == 0x1680
    || 0x2000 <= n <= 0x200A || n == 0x2028 || n == 0x2029 || n == 0x202F || n == 0x205F || n == 0x3000
  }

  /** The end of the run of digits that starts at `i` (`\d*`, greedy). */
  function SkipDigits(s: string, i: nat): (j: nat)
    requires i <= |s|
    ensures i <= j <= |s|
    ensures forall k :: i <= k < j ==> IsDigit(s[k])
    ensures j == |s| || !IsDigit(s[j])
    decreases |s| - i
  {
    if i < |s| && IsDigit(s[i]) then SkipDigits(s, i + 1) else i
  }

  /** The end of the run of whitespace that starts at `i` (`\s*`, greedy). */
  function SkipSpaces(s: string, i: nat): (j: nat)
    requires i <= |s|
    ensures i <= j <= |s|
    ensures forall k :: i <= k < j ==> IsSpace(s[k])
    ensures j == |s| || !IsSpace(s[j])
    decreases |s| - i
  {
    if i < |s| && IsSpace(s[i]) then SkipSpaces(s, i + 1) else i
  }

  /** The start of the run of whitespace that ends at `j`. */
  function BackOverSpaces(s: string, j: nat): (e: nat)
    requires j <= |s|
    ensures e <= j
    ensures forall k :: e <= k < j ==> IsSpace(s[k])
    ensures e == 0 || !IsSpace(s[e - 1])
  {
    if j > 0 && IsSpace(s[j - 1]) then BackOverSpaces(s, j - 1) else j
  }

  /** Strings that `strip()` leaves alone. */
  predicate Stripped(s: string) {
    s == [] || (!IsSpace(s[0]) && !IsSpace(s[|s| - 1]))
  }

  /** Python's `str.strip()` with no argument: `s` without its leading and trailing whitespace. */
  function Strip(s: string): (r: string)
    ensures |r| <= |s|
    ensures Stripped(r)
    ensures r == [] ==> forall k :: 0 <= k < |s| ==> IsSpace(s[k])
    ensures var a := SkipSpaces(s, 0);
      && a + |r| <= |s| && r == s[a..a + |r|]
      && (forall k :: a + |r| <= k < |s| ==> IsSpace(s[k]))
  {
    var a := SkipSpaces(s, 0);
    var e := BackOverSpaces(s, |s|);
    if e <= a then [] else s[a..e]
  }

  /** An article-prefix token starts at `i`: a letter immediately followed by a digit. */
  predicate TokenAt(s: string, i: nat) {
    i + 1 < |s| && IsAsciiLetter(s[i]) && IsDigit(s[i + 1])
  }

  predicate StartsWithToken(s: string) {
    TokenAt(s, 0)
  }

  /** Where the token at `i` ends: after its letter, all its digits and all the whitespace that follows. */
  function TokenEnd(s: string, i: nat): (j: nat)
    requires TokenAt(s, i)
    ensures i + 2 <= j <= |s|
  {
    SkipSpaces(s, SkipDigits(s, i + 1))
  }

  /** Where the greedy match of `(?:[A-Za-z]\d+\s*)*` starting at `i` ends. */
  function TokensEnd(s: string, i: nat): (k: nat)
    requires i <= |s|
    ensures i <= k <= |s|
    decreases |s| - i
  {
    if TokenAt(s, i) then TokensEnd(s, TokenEnd(s, i)) else i
  }

  /** The substitution step of the cleaner: the match of `^(?:[A-Za-z]\d+\s*)+` removed (nothing when it does not match). */
  function DropTokens(s: string): (r: string)
    ensures |r| <= |s|
  {
    s[TokensEnd(s, 0)..]
  }

  /** The cleaned label (`Libelle_nettoye`) of a label cell already converted with `str`. */
  function CleanLabel(s: string): (r: string)
    ensures |r| <= |s|
    ensures Stripped(r)
  {
    Strip(DropTokens(s))
  }

  // ---------------------------------------------------------------------------
  // An independent reference: the automaton of the token-run language
  // `(?:[A-Za-z]\d+\s*)*`. RunTo(p, |p|) is accepting exactly when p is a
  // (possibly empty) run of tokens.

  datatype Scan = Start | Letter | Digits | Spaces | Reject

  function Step(q: Scan, c: char): Scan {
    match q
    case Start => if IsAsciiLetter(c) then Letter else Reject
    case Letter => if IsDigit(c) then Digits else Reject
    case Digits =>
      if IsDigit(c) then Digits
      else if IsSpace(c) then Spaces
      else if IsAsciiLetter(c) then Letter
      else Reject
    case Spaces =>
      if IsSpace(c) then Spaces
      else if IsAsciiLetter(c) then Letter
      else Reject
    case Reject => Reject
  }

  /** The state after reading `s[..k]`. */
  function RunTo(s: string, k: nat): Scan
    requires k <= |s|
  {
    if k == 0 then Start else Step(RunTo(s, k - 1), s[k - 1])
  }

  predicate Accepting(q: Scan) {
    q == Start || q == Digits || q == Spaces
  }

  /** `p` is a concatenation of zero or more article-prefix tokens. */
  predicate IsTokenRun(p: string) {
    Accepting(RunTo(p, |p|))
  }

  /** The run over a prefix does not depend on what follows it. */
  lemma {:induction false} RunPrefix(s: string, j: nat, n: nat)
    requires j <= n <= |s|
    ensures RunTo(s[..n], j) == RunTo(s, j)
  {
    if j > 0 {
      RunPrefix(s, j - 1, n);
    }
  }

  lemma {:induction false} RejectStays(s: string, a: nat, b: nat)
    requires a <= b <= |s| && RunTo(s, a) == Reject
    ensures RunTo(s, b) == Reject
  {
    if b > a {
      RejectStays(s, a, b - 1);
    }
  }

  /** Digits after a letter, or after digits, leave the automaton in Digits. */
  lemma {:induction false} RunThroughDigits(s: string, a: nat, b: nat)
    requires a < b <= |s|
    requires RunTo(s, a) == Letter || RunTo(s, a) == Digits
    requires forall i :: a <= i < b ==> IsDigit(s[i])
    ensures RunTo(s, b) == Digits
  {
    if b > a + 1 {
      RunThroughDigits(s, a, b - 1);
    }
  }

  /** Whitespace after digits, or after whitespace, leaves the automaton in Spaces. */
  lemma {:induction false} RunThroughSpaces(s: string, a: nat, b: nat)
    requires a < b <= |s|
    requires RunTo(s, a) == Digits || RunTo(s, a) == Spaces
    requires forall i :: a <= i < b ==> IsSpace(s[i])
    ensures RunTo(s, b) == Spaces
  {
    if b > a + 1 {
      RunThroughSpaces(s, a, b - 1);
    }
  }

  /** The automaton is at a token boundary at `i`: what follows cannot extend the token just read. */
  predicate Boundary(s: string, i: nat)
    requires i <= |s|
  {
    var q := RunTo(s, i);
    || i == 0
    || (q == Digits && (i == |s| || (!IsDigit(s[i]) && !IsSpace(s[i]))))
    || (q == Spaces && (i == |s| || !IsSpace(s[i])))
  }

  /** Reading one greedy token from a boundary ends at a boundary again, after digits or whitespace. */
  lemma TokenStep(s: string, i: nat)
    requires i <= |s| && Boundary(s, i) && TokenAt(s, i)
    ensures RunTo(s, TokenEnd(s, i)) == Digits || RunTo(s, TokenEnd(s, i)) == Spaces
    ensures Boundary(s, TokenEnd(s, i))
  {
    var b := SkipDigits(s, i + 1);
    var k := TokenEnd(s, i);
    assert RunTo(s, i + 1) == Letter;
    RunThroughDigits(s, i + 1, b);
    if k > b {
      RunThroughSpaces(s, b, k);
    }
  }

  /** Greedy token removal from a boundary stops at a boundary, after an accepted prefix, before anything that is not a token. */
  lemma {:induction false} GreedyRun(s: string, i: nat)
    requires i <= |s| && Boundary(s, i)
    ensures Accepting(RunTo(s, TokensEnd(s, i)))
    ensures Boundary(s, TokensEnd(s, i))
    ensures !TokenAt(s, TokensEnd(s, i))
    ensures TokensEnd(s, i) > i ==> RunTo(s, TokensEnd(s, i)) != Start
    decreases |s| - i
  {
    if TokenAt(s, i) {
      TokenStep(s, i);
      GreedyRun(s, TokenEnd(s, i));
    }
  }

  /** From a boundary where no token starts, no longer prefix is a run of tokens. */
  lemma NoLongerRun(s: string, k: nat)
    requires k <= |s| && Boundary(s, k) && !TokenAt(s, k)
    ensures forall j :: k < j <= |s| ==> !Accepting(RunTo(s, j))
  {
    forall j | k < j <= |s|
      ensures !Accepting(RunTo(s, j))
    {
      assert RunTo(s, k + 1) == Letter || RunTo(s, k + 1) == Reject;
      if j > k + 1 {
        assert RunTo(s, k + 2) == Reject;
        RejectStays(s, k + 2, j);
      }
    }
  }

  /**
   * The cleaner removes exactly the LONGEST prefix that is a run of tokens
   * (the greedy regex match) and then strips what is left.
   */
  lemma CleanLabelRemovesLongestRun(s: string)
    ensures var k := TokensEnd(s, 0);
      && IsTokenRun(s[..k])
      && (forall j :: k < j <= |s| ==> !IsTokenRun(s[..j]))
      && CleanLabel(s) == Strip(s[k..])
  {
    var k := TokensEnd(s, 0);
    GreedyRun(s, 0);
    RunPrefix(s, k, k);
    NoLongerRun(s, k);
    forall j | k < j <= |s|
      ensures !IsTokenRun(s[..j])
    {
      RunPrefix(s, j, j);
    }
  }

  /** Without a leading token, only stripping happens. */
  lemma CleanLabelOnlyStrips(s: string)
    requires !StartsWithToken(s)
    ensures CleanLabel(s) == Strip(s)
  {
    assert s[0..] == s;
  }

  /** A string that does not start with whitespace keeps its first characters under `strip()`. */
  lemma StripKeepsStart(t: string)
    requires t == [] || !IsSpace(t[0])
    ensures Strip(t) == t[..|Strip(t)|]
  {
    assert SkipSpaces(t, 0) == 0;
  }

  lemma StripStripped(s: string)
    requires Stripped(s)
    ensures Strip(s) == s
  {
    if s != [] {
      assert SkipSpaces(s, 0) == 0;
      assert BackOverSpaces(s, |s|) == |s|;
      assert s[0..|s|] == s;
    }
  }

  /** When the label starts with a token, the cleaned label does not start with one. */
  lemma CleanLabelNoTokenSurvives(s: string)
    requires StartsWithToken(s)
    ensures !StartsWithToken(CleanLabel(s))
  {
    var k := TokensEnd(s, 0);
    GreedyRun(s, 0);
    var t := s[k..];
    assert t == [] || (!IsSpace(t[0]) && !TokenAt(s, k));
    StripKeepsStart(t);
    var r := Strip(t);
    if |r| >= 2 {
      assert r[0] == s[k] && r[1] == s[k + 1];
    }
  }

  /** A stripped label without a leading token is a fixed point of the cleaner. */
  lemma CleanLabelFixedPoint(r: string)
    requires Stripped(r) && !StartsWithToken(r)
    ensures CleanLabel(r) == r
  {
    assert r[0..] == r;
    StripStripped(r);
  }

  /**
   * The cleaner is idempotent on `s` exactly when stripping `s` does not bring
   * to the front a token that `s` itself did not start with. It fails only for
   * labels with leading whitespace before a token, because `^` anchors the
   * substitution before `strip()` runs.
   */
  lemma CleanLabelIdempotentIff(s: string)
    ensures CleanLabel(CleanLabel(s)) == CleanLabel(s) <==> StartsWithToken(s) || !StartsWithToken(Strip(s))
  {
    var r := CleanLabel(s);
    if StartsWithToken(s) {
      CleanLabelNoTokenSurvives(s);
      CleanLabelFixedPoint(r);
    } else {
      CleanLabelOnlyStrips(s);
      if StartsWithToken(r) {
        assert |CleanLabel(r)| <= |DropTokens(r)| < |r|;
      } else {
        CleanLabelFixedPoint(r);
      }
    }
  }

  /** A label with two prefix tokens. */
  const TwoTokenLabel: string := "A12 B34 " + WidgetDeluxe
  const WidgetDeluxe: string := "Widget Deluxe"

  lemma TwoTokenLabelFirst()
    ensures TokenAt(TwoTokenLabel, 0) && TokenEnd(TwoTokenLabel, 0) == 4
  {
    var s := TwoTokenLabel;
    assert SkipDigits(s, 1) == 3 by {
      assert SkipDigits(s, 1) == SkipDigits(s, 2) == SkipDigits(s, 3);
    }
    assert SkipSpaces(s, 3) == SkipSpaces(s, 4) == 4;
  }

  lemma TwoTokenLabelSecond()
    ensures TokenAt(TwoTokenLabel, 4) && TokenEnd(TwoTokenLabel, 4) == 8 && !TokenAt(TwoTokenLabel, 8)
  {
    var s := TwoTokenLabel;
    assert SkipDigits(s, 5) == 7 by {
      assert SkipDigits(s, 5) == SkipDigits(s, 6) == SkipDigits(s, 7);
    }
    assert SkipSpaces(s, 7) == SkipSpaces(s, 8) == 8;
  }

  lemma TokensEndStep(s: string, i: nat)
    requires TokenAt(s, i)
    ensures TokensEnd(s, i) == TokensEnd(s, TokenEnd(s, i))
  {
  }

  /** When the greedy match ends at `k` and what follows is already stripped, the cleaned label is what follows. */
  lemma CleanLabelRest(s: string, k: nat, rest: string)
    requires k <= |s| && TokensEnd(s, 0) == k && s[k..] == rest && Stripped(rest)
    ensures CleanLabel(s) == rest
  {
    StripStripped(rest);
  }

  /** Both prefix tokens are removed and the rest of the label is kept. */
  lemma CleanLabelExample()
    ensures CleanLabel(TwoTokenLabel) == WidgetDeluxe
  {
    var s := TwoTokenLabel;
    TwoTokenLabelFirst();
    TwoTokenLabelSecond();
    TokensEndStep(s, 0);
    TokensEndStep(s, 4);
    assert TokensEnd(s, 8) == 8;
    assert s[8..] == WidgetDeluxe;
    CleanLabelRest(s, 8, WidgetDeluxe);
  }

  /** Leading whitespace before a token defeats idempotence: " A1 X" cleans to "A1 X", which cleans to "X". */
  lemma LeadingBlankExample()
    ensures CleanLabel(" A1 X") == "A1 X"
    ensures CleanLabel("A1 X") == "X"
  {
    var s := " A1 X";
    assert !TokenAt(s, 0);
    CleanLabelOnlyStrips(s);
    assert SkipSpaces(s, 0) == 1 by {
      assert SkipSpaces(s, 0) == SkipSpaces(s, 1);
    }
    assert BackOverSpaces(s, 5) == 5;
    assert s[1..5] == "A1 X";
    var u := "A1 X";
    assert TokenAt(u, 0);
    assert SkipDigits(u, 1) == 2 by {
      assert SkipDigits(u, 1) == SkipDigits(u, 2);
    }
    assert TokenEnd(u, 0) == 3 by {
      assert SkipSpaces(u, 2) == SkipSpaces(u, 3) == 3;
    }
    assert !TokenAt(u, 3);
    assert u[3..] == "X";
    StripStripped("X");
  }
}
