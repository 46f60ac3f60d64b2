/** The two full-match patterns of the validator.

    NAME is `[a-zA-Z]* {0,2}[a-zA-Z]+`: letters, then at most two spaces,
    then at least one letter.  It is given twice: `NameSpec` says what a
    match is (a split of the string into the three parts) and `IsName` scans
    the string as a matcher would; `IsNameCorrect` proves they agree.

    BOOKING_IDENTIFIER is
    `NAME_[^\s@_]+@[^\s@]+\.[^\s@_]{2,}_[0-9]{1,7}`, given as a chain of
    split predicates, one per literal separator. */
module RegexPatterns {
  import opened Chars

  // ---------------------------------------------------------------- NAME

  /** Every character of `s[from..to]` is a letter. */
  predicate LettersIn(s: string, from: int, to: int)
    requires 0 <= from <= to <= |s|
  {
    forall m | from <= m < to :: IsLetter(s[m])
  }

  /** Every character of `s[from..to]` is a space. */
  predicate SpacesIn(s: string, from: int, to: int)
    requires 0 <= from <= to <= |s|
  {
    forall m | from <= m < to :: s[m] == ' '
  }

  /** `s[..i]` matches `[a-zA-Z]*`, `s[i..j]` matches ` {0,2}` and `s[j..]`
      matches `[a-zA-Z]+`. */
  predicate NameSplit(s: string, i: int, j: int)
  {
    0 <= i <= j < |s| && j - i <= 2 && LettersIn(s, 0, i) && SpacesIn(s, i, j) && LettersIn(s, j, |s|)
  }

  /** `s` is a full match of NAME. */
  predicate NameSpec(s: string)
  {
    exists i, j | 0 <= i <= j < |s| :: NameSplit(s, i, j)
  }

  /** The end of the longest run of letters starting at `k`. */
  function LetterRun(s: string, k: nat): (n: nat)
    requires k <= |s|
    ensures k <= n <= |s|
    ensures LettersIn(s, k, n)
    ensures n < |s| ==> !IsLetter(s[n])
    decreases |s| - k
  {
    if k == |s| || !IsLetter(s[k]) then k else LetterRun(s, k + 1)
  }

  /** The end of the longest run of spaces starting at `k`. */
  function SpaceRun(s: string, k: nat): (n: nat)
    requires k <= |s|
    ensures k <= n <= |s|
    ensures SpacesIn(s, k, n)
    ensures n < |s| ==> s[n] != ' '
    decreases |s| - k
  {
    if k == |s| || s[k] != ' ' then k else SpaceRun(s, k + 1)
  }

  /** Matcher for NAME: take the leading letters, then the spaces after
      them; the rest must be a non-empty run of letters unless the letters
      already reached the end. */
  predicate IsName(s: string)
  {
    var i := LetterRun(s, 0);
    var j := SpaceRun(s, i);
    if i == |s| then |s| > 0
    else j - i <= 2 && j < |s| && LetterRun(s, j) == |s|
  }

  /** A run of letters that stops at a non-letter is the longest run. */
  lemma LetterRunIsMaximal(s: string, k: nat, n: nat)
    requires k <= n <= |s| && LettersIn(s, k, n)
    requires n < |s| ==> !IsLetter(s[n])
    ensures LetterRun(s, k) == n
  {
  }

  /** A run of spaces that stops at a non-space is the longest run. */
  lemma SpaceRunIsMaximal(s: string, k: nat, n: nat)
    requires k <= n <= |s| && SpacesIn(s, k, n)
    requires n < |s| ==> s[n] != ' '
    ensures SpaceRun(s, k) == n
  {
  }

  lemma IsNameSound(s: string)
    requires IsName(s)
    ensures NameSpec(s)
  {
    var i := LetterRun(s, 0);
    var j := SpaceRun(s, i);
    if i == |s| {
      assert NameSplit(s, 0, 0);
    } else {
      assert NameSplit(s, i, j);
    }
  }

  lemma IsNameComplete(s: string)
    requires NameSpec(s)
    ensures IsName(s)
  {
    var i, j :| 0 <= i <= j < |s| && NameSplit(s, i, j);
    assert j - i <= 2 && LettersIn(s, 0, i) && SpacesIn(s, i, j) && LettersIn(s, j, |s|);
    if i == j {
      assert LettersIn(s, 0, |s|);
      LetterRunIsMaximal(s, 0, |s|);
    } else {
      LetterRunIsMaximal(s, 0, i);
      SpaceRunIsMaximal(s, i, j);
      LetterRunIsMaximal(s, j, |s|);
    }
  }

  /** The matcher accepts exactly the strings NAME describes. */
  lemma IsNameCorrect(s: string)
    ensures IsName(s) <==> NameSpec(s)
  {
    if IsName(s) { IsNameSound(s); }
    if NameSpec(s) { IsNameComplete(s); }
  }

  /** A name holds only letters and spaces; in particular no underscore,
      which is what lets the first `_` of a booking identifier end the name. */
  lemma NameHasNoUnderscore(s: string, k: int)
    requires IsName(s) && 0 <= k < |s|
    ensures IsLetter(s[k]) || s[k] == ' '
    ensures s[k] != '_'
  {
    IsNameSound(s);
    var i, j :| NameSplit(s, i, j);
  }

  /** A name ends in a letter: the empty string and a trailing space are
      rejected. */
  lemma NameEndsInLetter(s: string)
    requires NameSpec(s)
    ensures |s| > 0 && IsLetter(s[|s| - 1])
  {
    var i, j :| 0 <= i <= j < |s| && NameSplit(s, i, j);
  }

  /** A match has at most two spaces in a row. */
  lemma NameRejectsThreeSpaces(s: string, k: int)
    requires 0 <= k && k + 3 <= |s| && s[k] == ' ' && s[k + 1] == ' ' && s[k + 2] == ' '
    ensures !NameSpec(s)
  {
    forall i, j | 0 <= i <= j < |s| && LettersIn(s, 0, i) && LettersIn(s, j, |s|) ensures j - i > 2 {
      assert !IsLetter(s[k]) && !IsLetter(s[k + 2]);
    }
  }

  /** A match has a single run of spaces: two spaces with a letter between
      them are rejected. */
  lemma NameRejectsTwoSpaceRuns(s: string, k: int, l: int, m: int)
    requires 0 <= k < l < m < |s| && s[k] == ' ' && IsLetter(s[l]) && s[m] == ' '
    ensures !NameSpec(s)
  {
    forall i, j | 0 <= i <= j < |s| && LettersIn(s, 0, i) && LettersIn(s, j, |s|) ensures !SpacesIn(s, i, j) {
      assert !IsLetter(s[k]) && !IsLetter(s[m]) && s[l] != ' ';
    }
  }

  /** The rejected shapes, one string each. */
  lemma SampleNamesRejected()
    ensures !NameSpec("") && !NameSpec("Lee ") && !NameSpec("111111")
    ensures !NameSpec("Jo   Ann") && !NameSpec("Jo Ann Lee")
  {
    if NameSpec("Lee ") { NameEndsInLetter("Lee "); }
    if NameSpec("111111") { NameEndsInLetter("111111"); }
    NameRejectsThreeSpaces("Jo   Ann", 2);
    NameRejectsTwoSpaceRuns("Jo Ann Lee", 2, 3, 6);
  }

  // ---------------------------------------------------- BOOKING_IDENTIFIER

  /** `[^\s@_]`: the class of the local part and of the top-level domain. */
  predicate IsLocalChar(c: char) { !IsWhitespace(c) && c != '@' && c != '_' }

  /** `[^\s@]`: the class of the domain before the last dot. */
  predicate IsDomainChar(c: char) { !IsWhitespace(c) && c != '@' }

  predicate LocalCharsIn(s: string, from: int, to: int)
    requires 0 <= from <= to <= |s|
  {
    forall m | from <= m < to :: IsLocalChar(s[m])
  }

  predicate DomainCharsIn(s: string, from: int, to: int)
    requires 0 <= from <= to <= |s|
  {
    forall m | from <= m < to :: IsDomainChar(s[m])
  }

  /** `e` matches `[^\s@_]+@[^\s@]+\.[^\s@_]{2,}` with the `@` at `q` and
      the dot at `r`. */
  predicate EmailSplit(e: string, q: int, r: int)
  {
    && 1 <= q < r < |e|
    && LocalCharsIn(e, 0, q) && e[q] == '@'
    && q + 1 < r && DomainCharsIn(e, q + 1, r) && e[r] == '.'
    && |e| - r - 1 >= 2 && LocalCharsIn(e, r + 1, |e|)
  }

  /** The e-mail part of BOOKING_IDENTIFIER. */
  predicate IsEmailPart(e: string)
  {
    exists q, r | 0 <= q < r < |e| :: EmailSplit(e, q, r)
  }

  /** `[0-9]{1,7}` */
  predicate IsSuffixPart(s: string)
  {
    1 <= |s| <= 7 && AllDigits(s)
  }

  /** `s` matches BOOKING_IDENTIFIER with the name ending at `p` and the
      e-mail part ending at `t`. */
  predicate IdentifierSplit(s: string, p: int, t: int)
  {
    && 0 <= p < t < |s|
    && IsName(s[..p]) && s[p] == '_'
    && IsEmailPart(s[p + 1..t]) && s[t] == '_'
    && IsSuffixPart(s[t + 1..])
  }

  /** Full match of BOOKING_IDENTIFIER. */
  predicate IsBookingIdentifier(s: string)
  {
    exists p, t | 0 <= p < t < |s| :: IdentifierSplit(s, p, t)
  }

  /** The e-mail part holds exactly one `@`, and every `_` in it comes after
      that `@`: the local part admits no underscore. */
  lemma EmailPartUnderscoreAfterAt(e: string, i: int, j: int)
    requires IsEmailPart(e)
    requires 0 <= i < |e| && e[i] == '_'
    requires 0 <= j < |e| && e[j] == '@'
    ensures j < i
  {
    var q, r :| 0 <= q < r < |e| && EmailSplit(e, q, r);
    assert !IsLocalChar(e[i]) && !IsLocalChar(e[j]) && !IsDomainChar(e[j]);
  }

  /** An e-mail part starts with a character of its local part. */
  lemma EmailPartFirstChar(e: string)
    requires IsEmailPart(e)
    ensures |e| > 0 && IsLocalChar(e[0])
  {
    var q, r :| 0 <= q < r < |e| && EmailSplit(e, q, r);
  }

  /** `s` ends in `_` followed by exactly `k` digits, with `k` from 1 to 7. */
  predicate EndsInSuffix(s: string, k: int)
  {
    1 <= k <= 7 && k < |s| && s[|s| - k - 1] == '_' && AllDigits(s[|s| - k..])
  }

  /** Every accepted identifier ends in `_` followed by one to seven digits. */
  lemma IdentifierEndsInSuffix(s: string)
    requires IsBookingIdentifier(s)
    ensures exists k :: EndsInSuffix(s, k)
  {
    var p, t :| 0 <= p < t < |s| && IdentifierSplit(s, p, t);
    assert EndsInSuffix(s, |s| - t - 1);
  }

  /** Eight or more trailing digits cannot be matched: the `_` before the
      suffix would have to fall among them. */
  lemma EightTrailingDigitsRejected(s: string)
    requires |s| >= 8 && AllDigits(s[|s| - 8..])
    ensures !IsBookingIdentifier(s)
  {
    if IsBookingIdentifier(s) {
      IdentifierEndsInSuffix(s);
    }
  }

  /** A name, `_`, an e-mail part, `_` and a suffix make an identifier. */
  lemma IdentifierOfParts(name: string, email: string, digits: string)
    requires IsName(name) && IsEmailPart(email) && IsSuffixPart(digits)
    ensures IsBookingIdentifier(name + "_" + email + "_" + digits)
  {
    var s := name + "_" + email + "_" + digits;
    var p, t := |name|, |name| + 1 + |email|;
    assert s[..p] == name;
    assert s[p + 1..t] == email;
    assert s[t + 1..] == digits;
    assert IdentifierSplit(s, p, t);
  }

  lemma SampleNameAccepted()
    ensures IsName("dedicated")
  {
    assert NameSplit("dedicated", 0, 0);
    IsNameComplete("dedicated");
  }

  lemma SampleEmailAccepted()
    ensures IsEmailPart("wham@email.com")
  {
    assert EmailSplit("wham@email.com", 4, 10);
  }

  lemma SampleSuffixAccepted()
    ensures IsSuffixPart("1234567")
  {
  }

  /** The identifier used throughout the service tests,
      "dedicated_wham@email.com_1234567", is well formed. */
  lemma SampleIdentifierAccepted()
    ensures IsBookingIdentifier("dedicated" + "_" + "wham@email.com" + "_" + "1234567")
  {
    SampleNameAccepted();
    SampleEmailAccepted();
    SampleSuffixAccepted();
    IdentifierOfParts("dedicated", "wham@email.com", "1234567");
  }

  /** The name cannot contain `_`, so the first `_` of an identifier ends
      the name, and the character after it starts the local part. */
  lemma FirstUnderscoreEndsName(s: string, i: int)
    requires IsBookingIdentifier(s)
    requires 0 <= i < |s| && s[i] == '_'
    requires forall k | 0 <= k < i :: s[k] != '_'
    ensures i + 1 < |s| && IsLocalChar(s[i + 1])
  {
    var p, t :| 0 <= p < t < |s| && IdentifierSplit(s, p, t);
    if p > i {
      NameHasNoUnderscore(s[..p], i);
    }
    EmailPartFirstChar(s[p + 1..t]);
    assert s[p + 1..t][0] == s[p + 1];
  }

  /** A doubled underscore after the name leaves the local part empty. */
  lemma DoubledUnderscoreRejected()
    ensures !IsBookingIdentifier("nope__someEmail@email.com__1234567")
  {
    var s := "nope__someEmail@email.com__1234567";
    assert s[4] == '_' && s[5] == '_';
    assert forall k | 0 <= k < 4 :: s[k] != '_';
    if IsBookingIdentifier(s) {
      FirstUnderscoreEndsName(s, 4);
    }
  }
}
