/**
 * The fragment of Java regular expressions the owner check uses, given its
 * language semantics: `Matches(re, s)` holds when the WHOLE of `s` is in the
 * language of `re`, which is what `String.matches` asks.
 */
module Pattern {

  /** An inclusive character range such as `a-z`. */
  datatype Range = Range(lo: char, hi: char)

  datatype Regex =
    | Class(ranges: seq<Range>)                  // `[...]`: one character from one of the ranges
    | Concat(left: Regex, right: Regex)          // `left` followed by `right`
    | Repeat(body: Regex, min: nat, max: nat)    // `body{min,max}`

  predicate InClass(c: char, ranges: seq<Range>) {
    exists i :: 0 <= i < |ranges| && ranges[i].lo <= c <= ranges[i].hi
  }

  predicate Matches(re: Regex, s: string)
    decreases re, 0
  {
    match re
    case Class(rs) => |s| == 1 && InClass(s[0], rs)
    case Concat(a, b) => exists k :: 0 <= k <= |s| && Matches(a, s[..k]) && Matches(b, s[k..])
    case Repeat(r, lo, hi) => MatchesRepeat(r, lo, hi, s)
  }

  /** `s` splits into between `lo` and `hi` consecutive pieces, each matching `r`. */
  predicate MatchesRepeat(r: Regex, lo: nat, hi: nat, s: string)
    decreases r, hi + 1
  {
    || (lo == 0 && s == [])
    || (hi > 0 && exists k :: 0 <= k <= |s| && Matches(r, s[..k])
                                 && MatchesRepeat(r, if lo == 0 then 0 else lo - 1, hi - 1, s[k..]))
  }

  /** `[a-zA-Z]` */
  const Letters: seq<Range> := [Range('a', 'z'), Range('A', 'Z')]
  /** `[a-zA-Z0-9]` */
  const Alphanumerics: seq<Range> := [Range('a', 'z'), Range('A', 'Z'), Range('0', '9')]

  /** `[a-zA-Z][a-zA-Z0-9]{1,29}`, the pattern an owner name must match. */
  const OwnerPattern: Regex := Concat(Class(Letters), Repeat(Class(Alphanumerics), 1, 29))

  predicate IsAsciiLetter(c: char) {
    ('a' <= c <= 'z') || ('A' <= c <= 'Z')
  }

  predicate IsAsciiAlphanumeric(c: char) {
    IsAsciiLetter(c) || ('0' <= c <= '9')
  }

  /**
   * The owner rule in plain terms: 2 to 30 characters, an ASCII letter first,
   * ASCII letters or digits after it.
   */
  predicate IsValidOwner(s: string) {
    && 2 <= |s| <= 30
    && IsAsciiLetter(s[0])
    && forall i :: 1 <= i < |s| ==> IsAsciiAlphanumeric(s[i])
  }

  lemma LettersClass(c: char)
    ensures InClass(c, Letters) <==> IsAsciiLetter(c)
  {
    if 'a' <= c <= 'z' {
      assert Letters[0].lo <= c <= Letters[0].hi;
    } else if 'A' <= c <= 'Z' {
      assert Letters[1].lo <= c <= Letters[1].hi;
    }
  }

  lemma AlphanumericsClass(c: char)
    ensures InClass(c, Alphanumerics) <==> IsAsciiAlphanumeric(c)
  {
    if 'a' <= c <= 'z' {
      assert Alphanumerics[0].lo <= c <= Alphanumerics[0].hi;
    } else if 'A' <= c <= 'Z' {
      assert Alphanumerics[1].lo <= c <= Alphanumerics[1].hi;
    } else if '0' <= c <= '9' {
      assert Alphanumerics[2].lo <= c <= Alphanumerics[2].hi;
    }
  }

  /** A bounded repetition of a character class matches exactly the strings of
      `lo` to `hi` characters, each in the class. */
  lemma {:induction false} RepeatOfClass(rs: seq<Range>, lo: nat, hi: nat, s: string)
    ensures MatchesRepeat(Class(rs), lo, hi, s)
        <==> lo <= |s| <= hi && forall i :: 0 <= i < |s| ==> InClass(s[i], rs)
    decreases hi
  {
    if s == [] {
      assert !Matches(Class(rs), s[..0]);
    } else if hi > 0 {
      var lo' := if lo == 0 then 0 else lo - 1;
      var rest := s[1..];
      RepeatOfClass(rs, lo', hi - 1, rest);
      assert s[..1] == [s[0]];
      assert forall i :: 1 <= i < |s| ==> rest[i - 1] == s[i];
      if MatchesRepeat(Class(rs), lo, hi, s) {
        var k :| 0 <= k <= |s| && Matches(Class(rs), s[..k])
                 && MatchesRepeat(Class(rs), lo', hi - 1, s[k..]);
        assert k == 1;
      }
      if lo <= |s| <= hi && forall i :: 0 <= i < |s| ==> InClass(s[i], rs) {
        assert Matches(Class(rs), s[..1]);
        assert MatchesRepeat(Class(rs), lo', hi - 1, s[1..]);
      }
    }
  }

  /** The owner pattern accepts exactly the strings described by `IsValidOwner`. */
  lemma OwnerPatternMeaning(s: string)
    ensures Matches(OwnerPattern, s) <==> IsValidOwner(s)
  {
    var letter := Class(Letters);
    var tail := Repeat(Class(Alphanumerics), 1, 29);
    if |s| == 0 {
      assert !Matches(letter, s[..0]);
    } else {
      var rest := s[1..];
      RepeatOfClass(Alphanumerics, 1, 29, rest);
      LettersClass(s[0]);
      assert s[..1] == [s[0]];
      assert forall i :: 1 <= i < |s| ==> rest[i - 1] == s[i];
      forall i | 1 <= i < |s|
        ensures InClass(s[i], Alphanumerics) <==> IsAsciiAlphanumeric(s[i])
      {
        AlphanumericsClass(s[i]);
      }
      if Matches(OwnerPattern, s) {
        var k :| 0 <= k <= |s| && Matches(letter, s[..k]) && Matches(tail, s[k..]);
        assert k == 1;
      }
      if IsValidOwner(s) {
        assert Matches(letter, s[..1]);
        assert Matches(tail, s[1..]);
      }
    }
  }
}
