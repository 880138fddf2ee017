/**
 * The login form's schema. The mobile number must match two anchored
 * regular expressions in turn; both are written here as sequences of
 * quantified character classes, which is all either of them uses.
 */
module LoginForm {
  import opened JsText

  /** A character class: `\d`, a set of listed characters, or listed characters plus `\s`. */
  datatype CharClass = Digit | OneOf(chars: set<char>) | OneOfOrWhitespace(chars: set<char>)

  predicate InClass(c: char, cls: CharClass) {
    match cls
    case Digit => IsDigit(c)
    case OneOf(cs) => c in cs
    case OneOfOrWhitespace(cs) => c in cs || IsWhitespace(c)
  }

  predicate AllInClass(s: string, cls: CharClass) {
    forall i :: 0 <= i < |s| ==> InClass(s[i], cls)
  }

  /** `cls{min,max}`. */
  datatype Piece = Piece(cls: CharClass, min: nat, max: nat)

  /** The whole string matches the pieces in order (the pattern is anchored at both ends). */
  predicate Matches(pattern: seq<Piece>, s: string)
    decreases |pattern|, 1, 0
  {
    if pattern == [] then s == [] else MatchesFrom(pattern, s, pattern[0].min)
  }

  /**
   * The first piece takes `k` characters, or more up to its maximum, and the
   * remaining pieces match the rest.
   */
  predicate MatchesFrom(pattern: seq<Piece>, s: string, k: nat)
    requires pattern != []
    decreases |pattern|, 0, if k <= pattern[0].max then pattern[0].max - k else 0
  {
    && k <= pattern[0].max
    && (|| (k <= |s| && AllInClass(s[..k], pattern[0].cls) && Matches(pattern[1..], s[k..]))
        || (k < pattern[0].max && MatchesFrom(pattern, s, k + 1)))
  }

  /** `[-\s.]` */
  const Separator := OneOfOrWhitespace({'-', '.'})

  /** `^[+]?[(]?[0-9]{3}[)]?[-\s.]?[0-9]{3}[-\s.]?[0-9]{4,6}$` */
  const LoosePattern := [
    Piece(OneOf({'+'}), 0, 1), Piece(OneOf({'('}), 0, 1), Piece(Digit, 3, 3),
    Piece(OneOf({')'}), 0, 1), Piece(Separator, 0, 1), Piece(Digit, 3, 3),
    Piece(Separator, 0, 1), Piece(Digit, 4, 6)]

  /** `^\d{10}$` */
  const TenDigitPattern := [Piece(Digit, 10, 10)]

  /** The first pattern, then the second, after the non-empty check. */
  predicate ValidMobile(mobile: string) {
    |mobile| >= 1 && Matches(LoosePattern, mobile) && Matches(TenDigitPattern, mobile)
  }

  /** Non-empty, then a `length` of at least 6. */
  predicate ValidPassword(password: string) {
    Utf16Length(password) >= 1 && Utf16Length(password) >= 6
  }

  predicate Schema(mobile: string, password: string) {
    ValidMobile(mobile) && ValidPassword(password)
  }

  /** The second pattern accepts exactly the strings of ten ASCII digits. */
  lemma TenDigitPatternMeaning(s: string)
    ensures Matches(TenDigitPattern, s) <==> |s| == 10 && AllDigits(s)
  {
  }

  /** A piece that may be absent lets the rest of the pattern match the whole string. */
  lemma SkipOptional(pattern: seq<Piece>, s: string)
    requires pattern != [] && pattern[0].min == 0
    requires Matches(pattern[1..], s)
    ensures Matches(pattern, s)
  {
  }

  /** A piece of exactly `n` digits matches `n` leading digits before the rest. */
  lemma TakeDigits(pattern: seq<Piece>, s: string, n: nat)
    requires pattern != [] && pattern[0] == Piece(Digit, n, n)
    requires n <= |s| && AllDigits(s[..n])
    requires Matches(pattern[1..], s[n..])
    ensures Matches(pattern, s)
  {
  }

  /** Every string of ten digits also matches the first pattern: area code, exchange, four-digit line. */
  lemma TenDigitsMatchLoosePattern(s: string)
    requires |s| == 10 && AllDigits(s)
    ensures Matches(LoosePattern, s)
  {
    var p := LoosePattern;
    var line := s[6..];
    assert p[8..] == [];
    assert line[..4] == line && line[4..] == [];
    assert MatchesFrom(p[7..], line, 4);
    SkipOptional(p[6..], line);
    assert p[6..][1..] == p[7..];
    TakeDigits(p[5..], s[3..], 3);
    assert p[5..][1..] == p[6..];
    assert s[3..][3..] == line;
    SkipOptional(p[4..], s[3..]);
    assert p[4..][1..] == p[5..];
    SkipOptional(p[3..], s[3..]);
    assert p[3..][1..] == p[4..];
    TakeDigits(p[2..], s, 3);
    assert p[2..][1..] == p[3..];
    SkipOptional(p[1..], s);
    assert p[1..][1..] == p[2..];
    SkipOptional(p, s);
  }

  /** The mobile field accepts exactly the strings of ten ASCII digits. */
  lemma ValidMobileMeaning(mobile: string)
    ensures ValidMobile(mobile) <==> |mobile| == 10 && AllDigits(mobile)
  {
    TenDigitPatternMeaning(mobile);
    if |mobile| == 10 && AllDigits(mobile) {
      TenDigitsMatchLoosePattern(mobile);
    }
  }

  /**
   * The password field accepts exactly the strings of `length` at least six:
   * every string of six characters or more, no string of fewer than three,
   * and, between the two, those whose characters beyond U+FFFF make up the
   * difference.
   */
  lemma ValidPasswordMeaning(password: string)
    ensures ValidPassword(password) <==> Utf16Length(password) >= 6
    ensures |password| >= 6 ==> ValidPassword(password)
    ensures |password| < 3 ==> !ValidPassword(password)
    ensures (forall i :: 0 <= i < |password| ==> password[i] as int < 0x1_0000) ==>
      (ValidPassword(password) <==> |password| >= 6)
  {
  }

  /** Three emoji are six code units: a password of three characters that passes. */
  lemma ThreeEmojiPass()
    ensures |"\U{1F600}\U{1F600}\U{1F600}"| == 3 && ValidPassword("\U{1F600}\U{1F600}\U{1F600}")
  {
    var password := "\U{1F600}\U{1F600}\U{1F600}";
    var e := "\U{1F600}";
    assert Utf16Length(e) == 2 by {
      assert e[0] as int == 0x1F600 && e[1..] == [];
    }
    assert password[2..] == e && Utf16Length(password[1..]) == 2 + Utf16Length(password[2..]);
    assert Utf16Length(password) == 2 + Utf16Length(password[1..]);
  }
}
