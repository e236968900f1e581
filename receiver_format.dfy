/**
 * The receiver format check of `Arara::sendMessage`:
 * `preg_match('/^whatsapp:\+\d{8,15}$/', $receiver)`.
 *
 * The pattern has no modifiers, so `^` anchors at the start of the subject,
 * `\d` is an ASCII digit, `{8,15}` is greedy and backtracks, and `$` (no `D`
 * modifier) matches at the very end of the subject or just before a final
 * newline.
 */
module ReceiverFormat {
  import opened PhpStrings

  const Prefix: string := "whatsapp:+"
  const MinDigits: nat := 8
  const MaxDigits: nat := 15

  /** PCRE `$` without the `D` modifier, at position `i`. */
  predicate EndAnchorAt(s: string, i: nat) {
    i == |s| || (i == |s| - 1 && s[i] == '\n')
  }

  /**
   * `\d{8,15}$` tried at position `i` after `n` digits have been taken: the
   * greedy quantifier first tries one more digit, and falls back to ending
   * the repetition here once the minimum is reached.
   */
  predicate MatchDigitsThenEnd(s: string, i: nat, n: nat): (ok: bool)
    requires i <= |s| && n <= MaxDigits
    ensures ok ==> MinDigits <= n + (|s| - i) <= MaxDigits + 1
    decreases MaxDigits - n
  {
    || (n < MaxDigits && i < |s| && IsDigit(s[i]) && MatchDigitsThenEnd(s, i + 1, n + 1))
    || (MinDigits <= n && EndAnchorAt(s, i))
  }

  /** Whether `preg_match` finds the receiver pattern in `s`. */
  predicate Matches(s: string): (ok: bool)
    ensures ok ==> |Prefix| + MinDigits <= |s| <= |Prefix| + MaxDigits + 1
  {
    Prefix <= s && MatchDigitsThenEnd(s, |Prefix|, 0)
  }

  /** Where the subject's content ends: before one final newline, if there is one. */
  function ContentEnd(s: string): (e: nat)
    ensures e <= |s|
    ensures e == |s| || (e == |s| - 1 && s[e] == '\n')
  {
    if s != [] && s[|s| - 1] == '\n' then |s| - 1 else |s|
  }

  /**
   * From a position that does not follow a newline, the digit loop succeeds
   * exactly when everything up to the content end is digits and the total
   * digit count lands in 8..15.
   */
  lemma {:induction false} MatchDigitsExactly(s: string, i: nat, n: nat)
    requires 0 < i <= |s| && n <= MaxDigits && s[i - 1] != '\n'
    ensures MatchDigitsThenEnd(s, i, n) <==>
              && i <= ContentEnd(s)
              && MinDigits <= n + (ContentEnd(s) - i) <= MaxDigits
              && AllDigits(s[i..ContentEnd(s)])
    decreases MaxDigits - n
  {
    var e := ContentEnd(s);
    if n < MaxDigits && i < |s| && IsDigit(s[i]) {
      MatchDigitsExactly(s, i + 1, n + 1);
      assert i < e;
      assert s[i..e] == [s[i]] + s[i + 1..e];
    } else if i < e {
      assert !EndAnchorAt(s, i);
      if AllDigits(s[i..e]) {
        assert s[i..e][0] == s[i];
      }
    }
  }

  /**
   * The language of the pattern: the prefix, then 8 to 15 ASCII digits that
   * run up to the end of the subject or up to a single final newline.
   */
  lemma {:induction false} MatchesCharacterization(s: string)
    ensures Matches(s) <==>
              && Prefix <= s
              && |Prefix| + MinDigits <= ContentEnd(s) <= |Prefix| + MaxDigits
              && AllDigits(s[|Prefix|..ContentEnd(s)])
  {
    if Prefix <= s {
      assert s[|Prefix| - 1] == '+';
      MatchDigitsExactly(s, |Prefix|, 0);
    }
  }

  /** Every prefixed run of 8 to 15 digits is accepted, with or without one trailing newline. */
  lemma {:induction false} AcceptsPrefixedDigits(digits: string, trailingNewline: bool)
    requires MinDigits <= |digits| <= MaxDigits && AllDigits(digits)
    ensures Matches(Prefix + digits + (if trailingNewline then "\n" else ""))
  {
    var s := Prefix + digits + (if trailingNewline then "\n" else "");
    assert ContentEnd(s) == |Prefix| + |digits|;
    assert s[|Prefix|..ContentEnd(s)] == digits;
    MatchesCharacterization(s);
  }

  /** Every accepted subject is the prefix, its digits and at most one trailing newline. */
  lemma {:induction false} AcceptedShape(s: string)
    requires Matches(s)
    ensures var digits := s[|Prefix|..ContentEnd(s)];
            && MinDigits <= |digits| <= MaxDigits && AllDigits(digits)
            && (s == Prefix + digits || s == Prefix + digits + "\n")
  {
    MatchesCharacterization(s);
    var e := ContentEnd(s);
    assert s == s[..|Prefix|] + s[|Prefix|..e] + s[e..];
  }

  /** A prefixed digit run of the wrong length is rejected. */
  lemma {:induction false} RejectsWrongDigitCount(digits: string)
    requires AllDigits(digits) && !(MinDigits <= |digits| <= MaxDigits)
    ensures !Matches(Prefix + digits)
  {
    var s := Prefix + digits;
    if digits != [] {
      assert s[|s| - 1] == digits[|digits| - 1];
    }
    MatchesCharacterization(s);
  }

  /** A subject that starts with a trim character (such as a space) never matches. */
  lemma {:induction false} RejectsLeadingTrimChar(s: string)
    requires s != [] && IsTrimChar(s[0])
    ensures !Matches(s)
  {
    assert Prefix[0] == 'w';
  }

  /** Two trailing newlines are too many: only one may follow the digits. */
  lemma {:induction false} RejectsSecondNewline(digits: string)
    ensures !Matches(Prefix + digits + "\n\n")
  {
    var s := Prefix + digits + "\n\n";
    var e := ContentEnd(s);
    assert e == |s| - 1;
    assert !IsDigit(s[|Prefix|..e][|digits|]);
    MatchesCharacterization(s);
  }
}
