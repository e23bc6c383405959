/**
 * The two shape checks of class `Validator`: an email address and an Indian
 * phone number. Each anchored regular expression of the source is written twice:
 * once as a declarative shape (where the parts of the string lie) and once as a
 * left-to-right matcher that reads the string the way the regular expression
 * does; a lemma proves the two agree on every string.
 */
module Validator {
  import opened Nullable

  // ---------------------------------------------------------------------------
  // Character classes

  predicate IsAsciiLetter(c: char) { 'a' <= c <= 'z' || 'A' <= c <= 'Z' }

  /** `[0-9]` */
  predicate IsDigit(c: char) { '0' <= c <= '9' }

  /** `[1-9]` */
  predicate IsNonZeroDigit(c: char) { '1' <= c <= '9' }

  /** The local-part class `[a-zA-Z0-9_'*+/=?`{|}~^.-]` of the email pattern. */
  predicate IsLocalChar(c: char)
  {
    IsAsciiLetter(c) || IsDigit(c) || c in "_'*+/=?`{|}~^.-"
  }

  /** The domain class `[a-zA-Z0-9.-]` of the email pattern. */
  predicate IsDomainChar(c: char)
  {
    IsAsciiLetter(c) || IsDigit(c) || c == '.' || c == '-'
  }

  predicate AllLocal(s: string) { forall i | 0 <= i < |s| :: IsLocalChar(s[i]) }

  predicate AllDomain(s: string) { forall i | 0 <= i < |s| :: IsDomainChar(s[i]) }

  predicate AllDigits(s: string) { forall i | 0 <= i < |s| :: IsDigit(s[i]) }

  // ---------------------------------------------------------------------------
  // Email: ^[local]+@[domain]+$

  /**
   * `s` splits at index `k` into a run of local characters (possibly empty), an
   * '@', and a non-empty run of domain characters.
   */
  ghost predicate SplitAtSign(s: string, k: int)
  {
    0 <= k < |s| - 1 && s[k] == '@' && AllLocal(s[..k]) && AllDomain(s[k + 1..])
  }

  /** The whole string has the email shape (whole-string match, not a search). */
  ghost predicate EmailShape(s: string)
  {
    exists k :: 0 < k && SplitAtSign(s, k)
  }

  /**
   * Reads `s` as `[local]* @ [domain]+`, where `seen` says whether at least one
   * local character has already been read, so that with `seen == false` it reads
   * `[local]+ @ [domain]+`.
   */
  function MatchEmailFrom(s: string, seen: bool): bool
    decreases |s|
  {
    if s == [] then false
    else if s[0] == '@' then seen && |s| > 1 && AllDomain(s[1..])
    else IsLocalChar(s[0]) && MatchEmailFrom(s[1..], true)
  }

  /** Reading one local character moves every split of the rest one place to the right, and back. */
  lemma SplitAfterLocalChar(s: string, k: int)
    requires s != [] && IsLocalChar(s[0])
    ensures SplitAtSign(s[1..], k) <==> SplitAtSign(s, k + 1)
  {
    if 0 <= k < |s| - 2 {
      assert s[..k + 1] == [s[0]] + s[1..][..k];
      assert s[k + 2..] == s[1..][k + 1..];
    }
  }

  /** The matcher accepts exactly the strings that split into local part, '@' and domain. */
  lemma {:induction false} MatchEmailFromCorrect(s: string, seen: bool)
    ensures MatchEmailFrom(s, seen) <==> exists k :: (seen || 0 < k) && SplitAtSign(s, k)
    decreases |s|
  {
    if s == [] {
    } else if s[0] == '@' {
      if MatchEmailFrom(s, seen) {
        assert s[..0] == [];
        assert (seen || 0 < 0) && SplitAtSign(s, 0);
      }
      forall k | (seen || 0 < k) && SplitAtSign(s, k) ensures MatchEmailFrom(s, seen) {
      }
    } else if IsLocalChar(s[0]) {
      var t := s[1..];
      MatchEmailFromCorrect(t, true);
      if MatchEmailFrom(s, seen) {
        var j :| (true || 0 < j) && SplitAtSign(t, j);
        SplitAfterLocalChar(s, j);
        assert (seen || 0 < j + 1) && SplitAtSign(s, j + 1);
      }
      forall k | (seen || 0 < k) && SplitAtSign(s, k) ensures MatchEmailFrom(s, seen) {
        assert k != 0;
        SplitAfterLocalChar(s, k - 1);
        assert (true || 0 < k - 1) && SplitAtSign(t, k - 1);
      }
    } else {
      forall k | (seen || 0 < k) && SplitAtSign(s, k) ensures false {
      }
    }
  }

  /**
   * `Validator.validateEmail`: false on null, otherwise whether the whole string
   * matches `^[a-zA-Z0-9_'*+/=?`{|}~^.-]+@[a-zA-Z0-9.-]+$`.
   */
  function ValidateEmail(email: JString): (valid: bool)
    ensures valid <==> email.Some? && EmailShape(email.value)
  {
    match email
    case None => false
    case Some(s) =>
      MatchEmailFromCorrect(s, false);
      MatchEmailFrom(s, false)
  }

  /** Local part, '@' and domain drawn from their classes, both non-empty, make a valid email. */
  lemma EmailFromPartsAccepted(local: string, domain: string)
    requires local != [] && domain != [] && AllLocal(local) && AllDomain(domain)
    ensures ValidateEmail(Some(local + "@" + domain))
  {
    var s := local + "@" + domain;
    var n := |local|;
    assert s[..n] == local;
    assert s[n + 1..] == domain;
    assert 0 < n && SplitAtSign(s, n);
  }

  /**
   * A string built as local part, '@', domain is accepted exactly when both parts
   * are non-empty and drawn from their classes; since neither class holds '@',
   * no other way of splitting the string can be the one the pattern matches.
   */
  lemma EmailFromParts(local: string, domain: string)
    ensures ValidateEmail(Some(local + "@" + domain)) <==>
            local != [] && domain != [] && AllLocal(local) && AllDomain(domain)
  {
    var s := local + "@" + domain;
    var n := |local|;
    if local != [] && domain != [] && AllLocal(local) && AllDomain(domain) {
      EmailFromPartsAccepted(local, domain);
    }
    if ValidateEmail(Some(s)) {
      var k :| 0 < k && SplitAtSign(s, k);
      assert s[n] == '@';
      assert k == n;
      assert s[..n] == local;
      assert s[n + 1..] == domain;
    }
  }

  /**
   * Every accepted email has exactly one '@', neither first nor last; it starts
   * with a local character and ends with a domain character, so at least three
   * characters long.
   */
  lemma EmailStructure(s: string)
    requires ValidateEmail(Some(s))
    ensures |s| >= 3
    ensures multiset(s)['@'] == 1
    ensures s[0] != '@' && s[|s| - 1] != '@'
    ensures IsLocalChar(s[0]) && IsDomainChar(s[|s| - 1])
  {
    var k :| 0 < k && SplitAtSign(s, k);
    var local, domain := s[..k], s[k + 1..];
    assert s == local + [s[k]] + domain;
    assert '@' !in multiset(local);
    assert '@' !in multiset(domain);
    assert multiset(s) == multiset(local) + multiset{'@'} + multiset(domain);
    assert s[0] == local[0];
    assert s[|s| - 1] == domain[|domain| - 1];
  }

  /**
   * Matching is anchored at both ends: a character outside the local class put in
   * front, or one outside the domain class put behind, is never accepted, even
   * around a valid address.
   */
  lemma EmailAnchored(s: string, c: char)
    ensures !IsLocalChar(c) ==> !ValidateEmail(Some([c] + s))
    ensures !IsDomainChar(c) ==> !ValidateEmail(Some(s + [c]))
  {
    if !IsLocalChar(c) && ValidateEmail(Some([c] + s)) {
      EmailStructure([c] + s);
    }
    if !IsDomainChar(c) && ValidateEmail(Some(s + [c])) {
      EmailStructure(s + [c]);
    }
  }

  // ---------------------------------------------------------------------------
  // Phone: ^\+?[9][1]-?[1-9][0-9]{9}$

  /** `[1-9][0-9]{9}`: ten digits, the first non-zero. */
  predicate IsSubscriberNumber(t: string)
  {
    |t| == 10 && IsNonZeroDigit(t[0]) && AllDigits(t[1..])
  }

  /** `s` is `prefix` followed by a subscriber number. */
  predicate HasPhonePrefix(s: string, prefix: string)
  {
    |prefix| <= |s| && s[..|prefix|] == prefix && IsSubscriberNumber(s[|prefix|..])
  }

  /** The four strings the optional '+' and the optional '-' allow around "91". */
  ghost predicate PhoneShape(s: string)
  {
    HasPhonePrefix(s, "91") || HasPhonePrefix(s, "+91") ||
    HasPhonePrefix(s, "91-") || HasPhonePrefix(s, "+91-")
  }

  /** `[0-9]{n}` anchored at the end: exactly `n` digits and nothing after them. */
  function MatchDigits(t: string, n: nat): bool
    decreases n
  {
    if n == 0 then t == []
    else t != [] && IsDigit(t[0]) && MatchDigits(t[1..], n - 1)
  }

  lemma {:induction false} MatchDigitsCorrect(t: string, n: nat)
    ensures MatchDigits(t, n) <==> |t| == n && AllDigits(t)
    decreases n
  {
    if n != 0 && t != [] {
      MatchDigitsCorrect(t[1..], n - 1);
      if AllDigits(t) {
        assert forall i | 0 <= i < |t[1..]| :: t[1..][i] == t[i + 1];
      }
      if IsDigit(t[0]) && AllDigits(t[1..]) {
        forall i | 0 <= i < |t| ensures IsDigit(t[i]) {
          if i > 0 { assert t[i] == t[1..][i - 1]; }
        }
      }
    }
  }

  /** Reads `s` left to right as the phone pattern does, taking each optional part when present. */
  function MatchPhone(s: string): bool
  {
    var i := if 0 < |s| && s[0] == '+' then 1 else 0;
    if |s| < i + 2 || s[i] != '9' || s[i + 1] != '1' then false
    else
      var j := if i + 2 < |s| && s[i + 2] == '-' then i + 3 else i + 2;
      j < |s| && IsNonZeroDigit(s[j]) && MatchDigits(s[j + 1..], 9)
  }

  /** A string with any of the four prefixes is read by the matcher along that prefix. */
  lemma PrefixMatched(s: string, prefix: string)
    requires prefix == "91" || prefix == "+91" || prefix == "91-" || prefix == "+91-"
    requires HasPhonePrefix(s, prefix)
    ensures MatchPhone(s)
  {
    var n := |prefix|;
    var t := s[n..];
    assert s[0] == s[..n][0] && s[1] == s[..n][1];
    if n > 2 { assert s[2] == s[..n][2]; }
    if n > 3 { assert s[3] == s[..n][3]; }
    assert s[n] == t[0];
    assert s[n + 1..] == t[1..];
    MatchDigitsCorrect(t[1..], 9);
  }

  /** What the matcher reads is one of the four prefixes followed by a subscriber number. */
  lemma MatchedPhoneHasShape(s: string)
    requires MatchPhone(s)
    ensures PhoneShape(s)
  {
    // Dafny finds this proof unaided too; the hints below keep it cheaper and stable.
    var i := if 0 < |s| && s[0] == '+' then 1 else 0;
    var j := if i + 2 < |s| && s[i + 2] == '-' then i + 3 else i + 2;
    MatchDigitsCorrect(s[j + 1..], 9);
    assert s[j..][0] == s[j];
    assert s[j..][1..] == s[j + 1..];
    assert HasPhonePrefix(s, s[..j]);
    if i == 0 && j == 2 {
      assert s[..j] == "91";
    } else if i == 0 {
      assert s[..j] == "91-";
    } else if j == 3 {
      assert s[..j] == "+91";
    } else {
      assert s[..j] == "+91-";
    }
  }

  /** Taking an optional '+' or '-' whenever it is present loses nothing: neither is a digit. */
  lemma MatchPhoneCorrect(s: string)
    ensures MatchPhone(s) <==> PhoneShape(s)
  {
    if MatchPhone(s) { MatchedPhoneHasShape(s); }
    if HasPhonePrefix(s, "91") { PrefixMatched(s, "91"); }
    if HasPhonePrefix(s, "+91") { PrefixMatched(s, "+91"); }
    if HasPhonePrefix(s, "91-") { PrefixMatched(s, "91-"); }
    if HasPhonePrefix(s, "+91-") { PrefixMatched(s, "+91-"); }
  }

  /**
   * `Validator.validatePhoneNo`: false on null, otherwise whether the whole string
   * matches `^\+?[9][1]-?[1-9][0-9]{9}$`.
   */
  function ValidatePhoneNo(phone: JString): (valid: bool)
    ensures valid <==> phone.Some? && PhoneShape(phone.value)
  {
    match phone
    case None => false
    case Some(s) => MatchPhoneCorrect(s); MatchPhone(s)
  }

  /**
   * Every accepted phone number is 12 to 14 characters long and ends in a
   * ten-digit subscriber number whose first digit is not zero.
   */
  lemma PhoneStructure(s: string)
    requires ValidatePhoneNo(Some(s))
    ensures 12 <= |s| <= 14
    ensures IsSubscriberNumber(s[|s| - 10..])
  {
    if HasPhonePrefix(s, "91") {
      assert s[|s| - 10..] == s[2..];
    } else if HasPhonePrefix(s, "+91") || HasPhonePrefix(s, "91-") {
      assert s[|s| - 10..] == s[3..];
    } else {
      assert s[|s| - 10..] == s[4..];
    }
  }

  // ---------------------------------------------------------------------------
  // The inputs the program feeds to the two checks

  /** An address "p<digit>@email.com" of the program passes. */
  lemma ProgramEmailAccepted(d: char)
    requires IsDigit(d)
    ensures ValidateEmail(Some(['p', d] + "@email.com"))
  {
  }

  /** A number written "+91-" and a subscriber number, as all of the program's numbers are, passes. */
  lemma DashedNumberAccepted(s: string)
    requires |s| == 14 && s[..4] == "+91-" && IsSubscriberNumber(s[4..])
    ensures ValidatePhoneNo(Some(s))
  {
  }

  /** p1: "p1@email.com" and "+91-4156232215" both pass. */
  lemma P1Checks()
    ensures ValidateEmail(Some("p1@email.com"))
    ensures ValidatePhoneNo(Some("+91-4156232215"))
  {
    ProgramEmailAccepted('1');
    assert ['p', '1'] + "@email.com" == "p1@email.com";
    var s := "+91-4156232215";
    assert s[..4] == "+91-";
    assert IsSubscriberNumber(s[4..]);
    DashedNumberAccepted(s);
  }

  /** p2: the email passes; "+91-651511516516" has twelve subscriber digits and fails. */
  lemma P2Checks()
    ensures ValidateEmail(Some("p2@email.com"))
    ensures !ValidatePhoneNo(Some("+91-651511516516"))
  {
    ProgramEmailAccepted('2');
    assert ['p', '2'] + "@email.com" == "p2@email.com";
    var s := "+91-651511516516";
    if ValidatePhoneNo(Some(s)) { PhoneStructure(s); }
  }

  /** p3: the email passes; "+91-165165151" has nine subscriber digits and fails. */
  lemma P3Checks()
    ensures ValidateEmail(Some("p3@email.com"))
    ensures !ValidatePhoneNo(Some("+91-165165151"))
  {
    ProgramEmailAccepted('3');
    assert ['p', '3'] + "@email.com" == "p3@email.com";
    var s := "+91-165165151";
    if ValidatePhoneNo(Some(s)) { PhoneStructure(s); }
  }

  /** p4: "p4@email.com" and "+91-9354999989" both pass. */
  lemma P4Checks()
    ensures ValidateEmail(Some("p4@email.com"))
    ensures ValidatePhoneNo(Some("+91-9354999989"))
  {
    ProgramEmailAccepted('4');
    assert ['p', '4'] + "@email.com" == "p4@email.com";
    var s := "+91-9354999989";
    assert s[..4] == "+91-";
    assert IsSubscriberNumber(s[4..]);
    DashedNumberAccepted(s);
  }

  /**
   * p5: "@email.com" has an empty local part and fails (its phone number,
   * "+91-8799699989", would pass but is never checked).
   */
  lemma P5Checks()
    ensures !ValidateEmail(Some("@email.com"))
    ensures ValidatePhoneNo(Some("+91-8799699989"))
  {
    var s := "+91-8799699989";
    assert s[..4] == "+91-";
    assert IsSubscriberNumber(s[4..]);
    DashedNumberAccepted(s);
  }

  /** A number without the country code is rejected. */
  lemma NoCountryCodeRejected()
    ensures !ValidatePhoneNo(Some("123456"))
  {
    var s := "123456";
    if ValidatePhoneNo(Some(s)) { PhoneStructure(s); }
  }
}
