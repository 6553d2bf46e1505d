/**
 * The e-mail format check of the authentication service
 * (isValidEmail in internal/service/service.go), which matches the whole
 * string against  ^[a-zA-Z0-9._%+-]+@[a-zA-Z0-9.-]+\.[a-zA-Z]{2,}$ .
 *
 * MatchesPattern is the declarative reading of that expression (there is a
 * way to cut the string into local part, domain and top-level label);
 * IsValidEmail is a direct scanner that finds the cut points itself. The two
 * are proved equal, and the consequences of the pattern are proved about the
 * declarative reading.
 */
module Email {
  import opened Wrappers
  import opened Decimal

  // ---------------------------------------------------------------------
  // Character classes of the pattern

  /** [a-zA-Z] */
  predicate IsLetter(c: char) {
    ('a' <= c <= 'z') || ('A' <= c <= 'Z')
  }

  /** [a-zA-Z0-9._%+-] */
  predicate IsLocalChar(c: char) {
    IsLetter(c) || IsDigitChar(c) || c == '.' || c == '_' || c == '%' || c == '+' || c == '-'
  }

  /** [a-zA-Z0-9.-] */
  predicate IsDomainChar(c: char) {
    IsLetter(c) || IsDigitChar(c) || c == '.' || c == '-'
  }

  /** [a-zA-Z0-9._%+-]+ */
  predicate IsLocalPart(s: string) {
    |s| > 0 && forall i | 0 <= i < |s| :: IsLocalChar(s[i])
  }

  /** [a-zA-Z0-9.-]+ */
  predicate IsDomain(s: string) {
    |s| > 0 && forall i | 0 <= i < |s| :: IsDomainChar(s[i])
  }

  /** [a-zA-Z]{2,} */
  predicate IsTopLabel(s: string) {
    |s| >= 2 && forall i | 0 <= i < |s| :: IsLetter(s[i])
  }

  // ---------------------------------------------------------------------
  // Declarative reading of the pattern

  /** The string put together from its three parts: local@domain.top */
  function Join(local: string, domain: string, top: string): (s: string)
    ensures |s| == |local| + |domain| + |top| + 2
  {
    local + "@" + domain + "." + top
  }

  /** The three parts satisfy the three character classes and repetitions. */
  predicate IsSplit(local: string, domain: string, top: string) {
    IsLocalPart(local) && IsDomain(domain) && IsTopLabel(top)
  }

  /** The whole string matches the anchored pattern. */
  ghost predicate MatchesPattern(s: string): (m: bool)
    ensures m ==> |s| >= 6
  {
    exists local, domain, top :: IsSplit(local, domain, top) && s == Join(local, domain, top)
  }

  // ---------------------------------------------------------------------
  // Direct scanner

  /** Position of the first occurrence of c in s. */
  function FirstIndexOf(s: string, c: char): (r: Option<nat>)
    ensures r.Some? ==> r.value < |s| && s[r.value] == c
    ensures r.Some? ==> forall i | 0 <= i < r.value :: s[i] != c
    ensures r.None? ==> forall i | 0 <= i < |s| :: s[i] != c
  {
    if |s| == 0 then None
    else if s[0] == c then Some(0)
    else match FirstIndexOf(s[1..], c)
      case None => None
      case Some(k) => Some(k + 1)
  }

  /** Position of the last occurrence of c in s. */
  function LastIndexOf(s: string, c: char): (r: Option<nat>)
    ensures r.Some? ==> r.value < |s| && s[r.value] == c
    ensures r.Some? ==> forall i | r.value < i < |s| :: s[i] != c
    ensures r.None? ==> forall i | 0 <= i < |s| :: s[i] != c
  {
    if |s| == 0 then None
    else if s[|s| - 1] == c then Some(|s| - 1)
    else LastIndexOf(s[..|s| - 1], c)
  }

  /**
   * The scanner: cut at the first '@', cut what follows at its last '.',
   * and check each piece against its character class.
   */
  function IsValidEmail(email: string): (ok: bool)
    ensures ok ==> |email| >= 6
  {
    match FirstIndexOf(email, '@')
    case None => false
    case Some(at) =>
      var rest := email[at + 1..];
      match LastIndexOf(rest, '.')
      case None => false
      case Some(dot) => IsSplit(email[..at], rest[..dot], rest[dot + 1..])
  }

  // ---------------------------------------------------------------------
  // Properties

  /** In a matching string the '@' sits right after the local part, and the
      top label is everything after the last '.'. */
  lemma JoinCutPoints(local: string, domain: string, top: string)
    requires IsSplit(local, domain, top)
    ensures FirstIndexOf(Join(local, domain, top), '@') == Some(|local|)
    ensures LastIndexOf(Join(local, domain, top)[|local| + 1..], '.') == Some(|domain|)
  {
    var s := Join(local, domain, top);
    assert s[|local|] == '@';
    forall i | 0 <= i < |local| ensures s[i] != '@' {
      assert s[i] == local[i];
    }
    var rest := s[|local| + 1..];
    assert rest == domain + "." + top;
    assert rest[|domain|] == '.';
    forall i | |domain| < i < |rest| ensures rest[i] != '.' {
      assert rest[i] == top[i - |domain| - 1];
    }
  }

  /** Parts that satisfy their classes make a matching string. */
  lemma JoinMatches(local: string, domain: string, top: string)
    requires IsSplit(local, domain, top)
    ensures MatchesPattern(Join(local, domain, top))
  {
  }

  /** A matching string has a cut into its three parts. */
  lemma CutOf(email: string) returns (local: string, domain: string, top: string)
    requires MatchesPattern(email)
    ensures IsSplit(local, domain, top) && email == Join(local, domain, top)
  {
    local, domain, top :| IsSplit(local, domain, top) && email == Join(local, domain, top);
  }

  /** A string is what precedes position i, the character at i, and what follows. */
  lemma CutAt(s: string, i: nat)
    requires i < |s|
    ensures s == s[..i] + [s[i]] + s[i + 1..]
  {
  }

  /** Whatever the scanner accepts matches the pattern. */
  lemma ScannerIsSound(email: string)
    requires IsValidEmail(email)
    ensures MatchesPattern(email)
  {
    var at := FirstIndexOf(email, '@').value;
    var rest := email[at + 1..];
    var dot := LastIndexOf(rest, '.').value;
    var local, domain, top := email[..at], rest[..dot], rest[dot + 1..];
    assert IsSplit(local, domain, top);
    CutAt(rest, dot);
    CutAt(email, at);
    assert email == Join(local, domain, top);
    JoinMatches(local, domain, top);
  }

  /** Whatever matches the pattern the scanner accepts. */
  lemma ScannerIsComplete(email: string)
    requires MatchesPattern(email)
    ensures IsValidEmail(email)
  {
    var local, domain, top := CutOf(email);
    JoinCutPoints(local, domain, top);
    var at, rest := |local|, email[|local| + 1..];
    assert FirstIndexOf(email, '@') == Some(at);
    assert LastIndexOf(rest, '.') == Some(|domain|);
    assert email[..at] == local;
    assert rest == domain + "." + top;
    assert rest[..|domain|] == domain;
    assert rest[|domain| + 1..] == top;
    assert IsSplit(email[..at], rest[..|domain|], rest[|domain| + 1..]);
  }

  /** The scanner accepts exactly the strings the pattern matches. */
  lemma ScannerMatchesPattern(email: string)
    ensures IsValidEmail(email) <==> MatchesPattern(email)
  {
    if IsValidEmail(email) { ScannerIsSound(email); }
    if MatchesPattern(email) { ScannerIsComplete(email); }
  }

  /** A matching string holds exactly one '@'. */
  lemma MatchHasOneAt(email: string)
    requires MatchesPattern(email)
    ensures multiset(email)['@'] == 1
  {
    var local, domain, top :| IsSplit(local, domain, top) && email == Join(local, domain, top);
    assert '@' !in local by {
      forall i | 0 <= i < |local| ensures local[i] != '@' { assert IsLocalChar(local[i]); }
    }
    assert '@' !in domain by {
      forall i | 0 <= i < |domain| ensures domain[i] != '@' { assert IsDomainChar(domain[i]); }
    }
    assert '@' !in top by {
      forall i | 0 <= i < |top| ensures top[i] != '@' { assert IsLetter(top[i]); }
    }
    assert multiset(email) == multiset(local) + multiset("@") + multiset(domain) + multiset(".") + multiset(top);
  }

  /** The cut of a matching string is unique: its top label is the part
      after the last '.', and its local part the part before the only '@'. */
  lemma SplitIsUnique(l1: string, d1: string, t1: string, l2: string, d2: string, t2: string)
    requires IsSplit(l1, d1, t1) && IsSplit(l2, d2, t2)
    requires Join(l1, d1, t1) == Join(l2, d2, t2)
    ensures l1 == l2 && d1 == d2 && t1 == t2
  {
    var s := Join(l1, d1, t1);
    JoinCutPoints(l1, d1, t1);
    JoinCutPoints(l2, d2, t2);
    assert |l1| == |l2|;
    assert l1 == s[..|l1|] == l2;
    var rest := s[|l1| + 1..];
    assert |d1| == |d2|;
    assert rest == d1 + "." + t1 == d2 + "." + t2;
    assert d1 == rest[..|d1|] == d2;
    assert t1 == rest[|d1| + 1..] == t2;
  }

  /** The address of the registration example matches. */
  lemma ExampleAddressMatches()
    ensures MatchesPattern("a@b.com")
  {
    assert IsSplit("a", "b", "com") && "a@b.com" == Join("a", "b", "com");
  }

  /** A one-letter top label is refused. */
  lemma ShortTopLabelIsRefused()
    ensures !MatchesPattern("a@b.c")
  {
  }

  /** A second '@' is refused. */
  lemma SecondAtIsRefused()
    ensures !MatchesPattern("a@b@c.com")
  {
    if MatchesPattern("a@b@c.com") {
      MatchHasOneAt("a@b@c.com");
    }
  }
}
