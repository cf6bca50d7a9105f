/**
 * The e-mail check of the contact form: the regular expression
 * `^[^\s@]+@[^\s@]+\.[^\s@]+$`, which is deliberately looser than the
 * address grammar of section 3.4.1 of RFC 5322.
 */
module Email {
  import opened Text

  /** A character of the class `[^\s@]`. */
  predicate Plain(c: char) {
    !IsWs(c) && c != '@'
  }

  predicate AllPlain(s: string) {
    forall k | 0 <= k < |s| :: Plain(s[k])
  }

  /**
   * The pattern matches `s` with its literal `@` at index `i` and its
   * literal `.` at index `j`: each of the three runs around them is a
   * non-empty sequence of `[^\s@]` (the middle and last runs may hold dots).
   */
  ghost predicate MatchesAt(s: string, i: int, j: int) {
    && 0 < i && i + 1 < j && j + 1 < |s|
    && s[i] == '@' && s[j] == '.'
    && AllPlain(s[..i]) && AllPlain(s[i + 1..j]) && AllPlain(s[j + 1..])
  }

  /** What `RegExp.prototype.test` answers for the anchored pattern. */
  ghost predicate MatchesPattern(s: string) {
    exists i, j :: MatchesAt(s, i, j)
  }

  /** Some `.` that is neither the first nor the last character of `r`. */
  predicate HasInnerDot(r: string) {
    exists k | 0 < k < |r| - 1 :: r[k] == '.'
  }

  /**
   * The decision computed from the first `@`: the local part before it is
   * non-empty, nothing in the address is whitespace or a second `@`, and
   * the domain after it has an inner dot.
   */
  predicate EmailOk(s: string) {
    var i := IndexOf(s, '@');
    && 0 < i < |s|
    && AllPlain(s[..i])
    && AllPlain(s[i + 1..])
    && HasInnerDot(s[i + 1..])
  }

  /** Every address the decision accepts matches, split at its first `@`. */
  lemma EmailOkMatches(s: string)
    requires EmailOk(s)
    ensures MatchesPattern(s)
  {
    var i := IndexOf(s, '@');
    var r := s[i + 1..];
    var k :| 0 < k < |r| - 1 && r[k] == '.';
    var j := i + 1 + k;
    assert s[i + 1..j] == r[..k];
    assert s[j + 1..] == r[k + 1..];
    assert MatchesAt(s, i, j);
  }

  /** A match has its `@` at the first `@`, so the decision accepts it. */
  lemma MatchIsEmailOk(s: string, i: int, j: int)
    requires MatchesAt(s, i, j)
    ensures EmailOk(s)
  {
    assert forall k | 0 <= k < i :: s[..i][k] == s[k];
    assert IndexOf(s, '@') == i;
    var r := s[i + 1..];
    assert forall k | 0 <= k < |r| :: Plain(r[k]) by {
      forall k | 0 <= k < |r| ensures Plain(r[k]) {
        if k < j - i - 1 {
          assert r[k] == s[i + 1..j][k];
        } else if k > j - i - 1 {
          assert r[k] == s[j + 1..][k - (j - i)];
        }
      }
    }
    assert r[j - i - 1] == '.';
  }

  /** The decision agrees with the regular expression on every string. */
  lemma EmailOkIsPattern(s: string)
    ensures EmailOk(s) <==> MatchesPattern(s)
  {
    if EmailOk(s) {
      EmailOkMatches(s);
    }
    if MatchesPattern(s) {
      var i, j :| MatchesAt(s, i, j);
      MatchIsEmailOk(s, i, j);
    }
  }

  /** An address the pattern accepts holds exactly one `@`. */
  lemma AcceptedEmailHasOneAt(s: string)
    requires MatchesPattern(s)
    ensures Count(s, '@') == 1
  {
    var i, j :| MatchesAt(s, i, j);
    MatchIsEmailOk(s, i, j);
    var l, r := s[..i], s[i + 1..];
    assert s == l + ([s[i]] + r);
    CountAppend(l, [s[i]] + r, '@');
    CountAppend([s[i]], r, '@');
    CountAbsent(l, '@');
    CountAbsent(r, '@');
  }

  /** A well-formed address, and one whose domain has no dot. */
  lemma EmailExamples()
    ensures EmailOk("a@b.com")
    ensures !EmailOk("bob@nodot")
  {
    assert IndexOf("a@b.com", '@') == 1;
    assert "a@b.com"[2..][1] == '.';
    assert IndexOf("bob@nodot", '@') == 3;
    assert "bob@nodot"[4..] == "nodot";
  }
}
