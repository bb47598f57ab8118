/**
 * The two regular expressions of the validation rules, each as a predicate
 * on sequences: /^\S+@\S+\.\S+$/ for e-mail addresses and /^\d{10}$/ for
 * phone numbers. The e-mail expression is also given as the left-to-right
 * scanner a regular-expression engine runs, proved to accept exactly the
 * strings the declarative reading describes.
 */
module Patterns {
  import opened Strings

  // ---------------------------------------------------------------------
  // /^\d{10}$/
  // ---------------------------------------------------------------------

  /** \d without the u flag: the ASCII digits only. */
  predicate IsDigit(c: char) {
    '0' <= c <= '9'
  }

  /** /^\d{10}$/.test(s): exactly ten ASCII digits and nothing else. */
  predicate TenDigits(s: string) {
    |s| == 10 && forall i | 0 <= i < |s| :: IsDigit(s[i])
  }

  // ---------------------------------------------------------------------
  // /^\S+@\S+\.\S+$/, declaratively
  // ---------------------------------------------------------------------

  /** Some '@' has at least one character before it. */
  predicate HasAt(s: string) {
    exists i | 0 < i < |s| :: s[i] == '@'
  }

  /** Some '@' has at least one character before and one after it. */
  predicate HasDomain(s: string) {
    exists i | 0 < i && i + 1 < |s| :: s[i] == '@'
  }

  /** Some '@' with a character before it is followed, after at least one
      more character, by a '.'. */
  predicate HasDot(s: string) {
    exists i, j | 0 < i && i + 1 < j < |s| :: s[i] == '@' && s[j] == '.'
  }

  /** As HasDot, with at least one character after the '.'. */
  predicate HasTld(s: string) {
    exists i, j | 0 < i && i + 1 < j && j + 1 < |s| :: s[i] == '@' && s[j] == '.'
  }

  /** What /^\S+@\S+\.\S+$/ accepts: since \S also matches '@' and '.', no
      whitespace anywhere, and a non-empty part before an '@', a non-empty
      part between it and a later '.', and a non-empty part after that '.'. */
  predicate EmailShape(s: string) {
    NoWhitespace(s) && HasTld(s)
  }

  // ---------------------------------------------------------------------
  // /^\S+@\S+\.\S+$/, as a scanner
  // ---------------------------------------------------------------------

  /** How far the scanner has got through the expression: each state keeps
      the furthest point of the expression the input read so far can reach
      (a later point accepts every continuation an earlier one does). */
  datatype EmailState =
    | Start   // nothing read
    | Local   // inside the first \S+
    | At      // just read the '@'
    | Domain  // inside the second \S+
    | Dot     // just read the '.'
    | Tld     // inside the third \S+: accepting
    | Dead    // read a whitespace character

  function Step(st: EmailState, c: char): EmailState {
    if IsWhitespace(c) then Dead
    else match st
      case Start => Local
      case Local => if c == '@' then At else Local
      case At => Domain
      case Domain => if c == '.' then Dot else Domain
      case Dot => Tld
      case Tld => Tld
      case Dead => Dead
  }

  /** The state after reading all of s. */
  function Scan(s: string): EmailState {
    if s == [] then Start else Step(Scan(s[..|s| - 1]), s[|s| - 1])
  }

  /** /^\S+@\S+\.\S+$/.test(s), as the scanner decides it. */
  predicate MatchesEmail(s: string) {
    Scan(s) == Tld
  }

  /** How each declarative condition of s follows from those of s without
      its last character. */
  lemma ExtendByOne(s: string)
    requires |s| > 0
    ensures var p, c := s[..|s| - 1], s[|s| - 1];
      && (NoWhitespace(s) <==> NoWhitespace(p) && !IsWhitespace(c))
      && (HasAt(s) <==> HasAt(p) || (|p| > 0 && c == '@'))
      && (HasDomain(s) <==> HasAt(p))
      && (HasDot(s) <==> HasDot(p) || (HasDomain(p) && c == '.'))
      && (HasTld(s) <==> HasDot(p))
  {
    var p, c := s[..|s| - 1], s[|s| - 1];
    assert forall i | 0 <= i < |p| :: p[i] == s[i];
    if NoWhitespace(p) && !IsWhitespace(c) {
      forall i | 0 <= i < |s| ensures !IsWhitespace(s[i]) {
        if i < |p| { assert s[i] == p[i]; }
      }
    }
    if HasAt(s) && !HasAt(p) {
      var i :| 0 < i < |s| && s[i] == '@';
      assert i == |p|;
    }
    if HasDot(s) && !HasDot(p) {
      var i, j :| 0 < i && i + 1 < j < |s| && s[i] == '@' && s[j] == '.';
      assert j == |p|;
      assert p[i] == '@';
    }
    if HasDomain(p) && c == '.' {
      var i :| 0 < i && i + 1 < |p| && p[i] == '@';
      assert s[i] == '@' && s[|p|] == '.';
    }
    if HasTld(s) {
      var i, j :| 0 < i && i + 1 < j && j + 1 < |s| && s[i] == '@' && s[j] == '.';
      assert p[i] == '@' && p[j] == '.';
    }
    if HasDot(p) {
      var i, j :| 0 < i && i + 1 < j < |p| && p[i] == '@' && p[j] == '.';
      assert s[i] == '@' && s[j] == '.';
    }
    if HasDomain(s) {
      var i :| 0 < i && i + 1 < |s| && s[i] == '@';
      assert p[i] == '@';
    }
    if HasAt(p) {
      var i :| 0 < i < |p| && p[i] == '@';
      assert s[i] == '@';
    }
  }

  /** What each scanner state says about the input read so far. */
  lemma {:induction false} ScanMeaning(s: string)
    ensures Scan(s) == Dead <==> !NoWhitespace(s)
    ensures NoWhitespace(s) ==>
      && (Scan(s) == Start <==> s == [])
      && (Scan(s) == Local <==> s != [] && !HasAt(s))
      && (Scan(s) == At <==> HasAt(s) && !HasDomain(s))
      && (Scan(s) == Domain <==> HasDomain(s) && !HasDot(s))
      && (Scan(s) == Dot <==> HasDot(s) && !HasTld(s))
      && (Scan(s) == Tld <==> HasTld(s))
  {
    if s != [] {
      var p := s[..|s| - 1];
      ScanMeaning(p);
      ExtendByOne(s);
      if p != [] {
        // the conditions are nested: each implies the one before it
        ExtendByOne(p);
      }
    }
  }

  /** The scanner accepts exactly the strings the expression describes. */
  lemma MatchesEmailIff(s: string)
    ensures MatchesEmail(s) <==> EmailShape(s)
  {
    ScanMeaning(s);
  }
}
