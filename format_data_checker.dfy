/** String helpers of the record store: blank handling and trimming, the
    normalisation used by every search, and the two fixed-pattern validators
    the console applies to phone numbers and e-mail addresses.

    Modelling assumptions: String.isBlank and String.trim share one notion
    of white space, the characters at or below U+0020 (trim's own set);
    toLowerCase is ASCII lower-casing, which is exact for the strings it
    receives here (only [A-Za-z0-9_] survive the two replaceAll passes
    before it) except for locale-specific mappings such as the Turkish
    dotless i. */
module FormatDataChecker {
  import opened Optional

  // ---------------------------------------------------------------------
  // Blank strings and trimming
  // ---------------------------------------------------------------------

  /** White space as String.trim removes it. */
  predicate IsSpace(c: char) {
    c <= ' '
  }

  /** String.isBlank: empty, or white space only. */
  predicate IsBlank(s: string) {
    forall i | 0 <= i < |s| :: IsSpace(s[i])
  }

  /** The test `Objects.isNull(str) || str.isBlank()` used throughout the backend. */
  predicate IsNullOrBlank(str: Option<string>)
    ensures !IsNullOrBlank(str) ==> str.Some? && str.value != []
  {
    str.None? || IsBlank(str.value)
  }

  /** Number of white-space characters at the start of `s`. */
  function LeadingSpaces(s: string): (n: nat)
    ensures n <= |s|
    ensures forall i | 0 <= i < n :: IsSpace(s[i])
    ensures n < |s| ==> !IsSpace(s[n])
  {
    if s != [] && IsSpace(s[0]) then 1 + LeadingSpaces(s[1..]) else 0
  }

  /** Number of white-space characters at the end of `s`. */
  function TrailingSpaces(s: string): (n: nat)
    ensures n <= |s|
    ensures forall i | |s| - n <= i < |s| :: IsSpace(s[i])
    ensures n < |s| ==> !IsSpace(s[|s| - n - 1])
  {
    if s != [] && IsSpace(s[|s| - 1]) then 1 + TrailingSpaces(s[..|s| - 1]) else 0
  }

  /** `r` is a contiguous part of `s` with only white space before and after it. */
  predicate CutFrom(r: string, s: string) {
    exists i | 0 <= i <= |s| - |r| ::
      r == s[i..i + |r|] && IsBlank(s[..i]) && IsBlank(s[i + |r|..])
  }

  /** String.trim: the contiguous part of `s` left once white space is cut
      from both ends. */
  function Trim(s: string): (r: string)
    ensures |r| <= |s|
    ensures r == [] <==> IsBlank(s)
    ensures r != [] ==> !IsSpace(r[0]) && !IsSpace(r[|r| - 1])
    ensures CutFrom(r, s)
  {
    var lead := LeadingSpaces(s);
    if lead == |s| then
      assert IsBlank(s[..0]) && IsBlank(s[0..]);
      []
    else
      var trail := TrailingSpaces(s);
      assert lead + trail < |s|;
      assert !IsBlank(s) by { assert !IsSpace(s[lead]); }
      assert IsBlank(s[..lead]) && IsBlank(s[|s| - trail..]);
      s[lead..|s| - trail]
  }

  /** makeNotBlank: "" for a null or blank string, the trimmed string otherwise. */
  function MakeNotBlank(str: Option<string>): (r: string)
    ensures IsNullOrBlank(str) ==> r == ""
    ensures !IsNullOrBlank(str) ==>
              r != [] && !IsSpace(r[0]) && !IsSpace(r[|r| - 1]) && CutFrom(r, str.value)
  {
    if IsNullOrBlank(str) then "" else Trim(str.value)
  }

  /** Applying makeNotBlank to its own result changes nothing. */
  lemma MakeNotBlankIdempotent(str: Option<string>)
    ensures MakeNotBlank(Some(MakeNotBlank(str))) == MakeNotBlank(str)
  {
    var r := MakeNotBlank(str);
    if r != [] {
      assert !IsBlank(r) by { assert !IsSpace(r[0]); }
      assert LeadingSpaces(r) == 0 && TrailingSpaces(r) == 0;
      assert r[0..|r|] == r;
    }
  }

  // ---------------------------------------------------------------------
  // Normalisation for search: transformStringForSearch
  // ---------------------------------------------------------------------

  /** `\s` in a Java regular expression: [ \t\n\x0B\f\r]. */
  predicate IsRegexSpace(c: char) {
    c == ' ' || c == '\t' || c == '\n' || c == '\U{B}' || c == '\U{C}' || c == '\r'
  }

  /** `\w` in a Java regular expression: [a-zA-Z_0-9]; `\W` is its complement. */
  predicate IsWordChar(c: char) {
    'a' <= c <= 'z' || 'A' <= c <= 'Z' || '0' <= c <= '9' || c == '_'
  }

  /** A character a normalised search string may hold: [a-z0-9_]. */
  predicate IsSearchChar(c: char) {
    'a' <= c <= 'z' || '0' <= c <= '9' || c == '_'
  }

  /** `replaceAll("\\s+", "")`: every run of white space removed. Every
      other character is kept as often as it occurs (RemoveRegexSpaceCounts)
      and in its order (RemoveRegexSpaceAppend). */
  function RemoveRegexSpace(s: string): (r: string)
    ensures |r| <= |s|
    ensures forall i | 0 <= i < |r| :: !IsRegexSpace(r[i])
  {
    if s == [] then []
    else (if IsRegexSpace(s[0]) then [] else [s[0]]) + RemoveRegexSpace(s[1..])
  }

  /** `replaceAll("\\W", "")`: every non-word character removed. Every word
      character is kept as often as it occurs (RemoveNonWordCounts) and in
      its order (RemoveNonWordAppend). */
  function RemoveNonWord(s: string): (r: string)
    ensures |r| <= |s|
    ensures forall i | 0 <= i < |r| :: IsWordChar(r[i])
  {
    if s == [] then []
    else (if IsWordChar(s[0]) then [s[0]] else []) + RemoveNonWord(s[1..])
  }

  /** Character.toLowerCase restricted to ASCII. */
  function LowerChar(c: char): char {
    if 'A' <= c <= 'Z' then (c as int + 32) as char else c
  }

  /** `toLowerCase()` on ASCII text. */
  function ToLowerCase(s: string): (r: string)
    ensures |r| == |s|
  {
    seq(|s|, i requires 0 <= i < |s| => LowerChar(s[i]))
  }

  /** Lower-casing leaves no capital letter, turns each capital into its
      own small letter ('A' + k into 'a' + k), and leaves every other
      character where it was. */
  lemma LowerCaseLeavesNoCapitals(s: string)
    ensures forall i | 0 <= i < |s| :: !('A' <= ToLowerCase(s)[i] <= 'Z')
    ensures forall i | 0 <= i < |s| :: 'A' <= s[i] <= 'Z' ==> 'a' <= ToLowerCase(s)[i] <= 'z'
    ensures forall i | 0 <= i < |s| :: 'A' <= s[i] <= 'Z' ==> ToLowerCase(s)[i] as int == s[i] as int + 32
    ensures forall i | 0 <= i < |s| :: !('A' <= s[i] <= 'Z') ==> ToLowerCase(s)[i] == s[i]
    ensures ToLowerCase(ToLowerCase(s)) == ToLowerCase(s)
  {
  }

  /** transformStringForSearch: drop white space, drop non-word characters,
      lower-case what is left. */
  function TransformForSearch(str: string): (r: string)
    ensures |r| <= |str|
    ensures forall i | 0 <= i < |r| :: IsSearchChar(r[i])
  {
    ToLowerCase(RemoveNonWord(RemoveRegexSpace(str)))
  }

  /** The white-space pass removes every `\s` character and keeps every
      other character as often as the input holds it. */
  lemma {:induction false} RemoveRegexSpaceCounts(s: string)
    ensures forall c :: multiset(RemoveRegexSpace(s))[c] == if IsRegexSpace(c) then 0 else multiset(s)[c]
  {
    if s != [] {
      RemoveRegexSpaceCounts(s[1..]);
      assert s == [s[0]] + s[1..];
    }
  }

  /** The non-word pass keeps every word character as often as the input
      holds it, and nothing else. */
  lemma {:induction false} RemoveNonWordCounts(s: string)
    ensures forall c :: multiset(RemoveNonWord(s))[c] == if IsWordChar(c) then multiset(s)[c] else 0
  {
    if s != [] {
      RemoveNonWordCounts(s[1..]);
      assert s == [s[0]] + s[1..];
    }
  }

  /** The first pass removes nothing the second would keep: the
      normalisation is "keep the word characters, lower-cased". */
  lemma {:induction false} WhitespacePassIsRedundant(s: string)
    ensures RemoveNonWord(RemoveRegexSpace(s)) == RemoveNonWord(s)
  {
    if s != [] {
      WhitespacePassIsRedundant(s[1..]);
      RemoveNonWordAppend(if IsRegexSpace(s[0]) then [] else [s[0]], RemoveRegexSpace(s[1..]));
    }
  }

  /** The white-space pass works character by character, so it keeps the
      surviving characters in their order. */
  lemma {:induction false} RemoveRegexSpaceAppend(a: string, b: string)
    ensures RemoveRegexSpace(a + b) == RemoveRegexSpace(a) + RemoveRegexSpace(b)
  {
    if a != [] {
      assert (a + b)[1..] == a[1..] + b;
      RemoveRegexSpaceAppend(a[1..], b);
    } else {
      assert a + b == b;
    }
  }

  /** The non-word pass works character by character, so it keeps the
      surviving characters in their order. */
  lemma {:induction false} RemoveNonWordAppend(a: string, b: string)
    ensures RemoveNonWord(a + b) == RemoveNonWord(a) + RemoveNonWord(b)
  {
    if a != [] {
      assert (a + b)[1..] == a[1..] + b;
      RemoveNonWordAppend(a[1..], b);
    } else {
      assert a + b == b;
    }
  }

  /** Normalisation of one character: a word character lower-cased, or nothing. */
  lemma TransformChar(c: char)
    ensures TransformForSearch([c]) == if IsWordChar(c) then [LowerChar(c)] else []
  {
    assert RemoveRegexSpace([c]) == if IsRegexSpace(c) then [] else [c] by {
      assert [c][1..] == [];
    }
    WhitespacePassIsRedundant([c]);
    assert RemoveNonWord([c]) == if IsWordChar(c) then [c] else [] by {
      assert [c][1..] == [];
    }
  }

  /** The normalisation works character by character: it distributes over
      concatenation. With TransformChar this determines it completely. */
  lemma TransformAppend(a: string, b: string)
    ensures TransformForSearch(a + b) == TransformForSearch(a) + TransformForSearch(b)
  {
    WhitespacePassIsRedundant(a + b);
    WhitespacePassIsRedundant(a);
    WhitespacePassIsRedundant(b);
    RemoveNonWordAppend(a, b);
  }

  /** Normalising twice is normalising once. */
  lemma {:induction false} TransformIdempotent(s: string)
    ensures TransformForSearch(TransformForSearch(s)) == TransformForSearch(s)
  {
    if s != [] {
      var t := TransformForSearch(s[1..]);
      TransformIdempotent(s[1..]);
      assert s == [s[0]] + s[1..];
      TransformAppend([s[0]], s[1..]);
      TransformChar(s[0]);
      var h := TransformForSearch([s[0]]);
      TransformAppend(h, t);
      if IsWordChar(s[0]) {
        TransformChar(LowerChar(s[0]));
      } else {
        assert h + t == t;
      }
    } else {
      assert TransformForSearch(s) == [];
    }
  }

  /** `toUpperCase()` on ASCII text, to state that search ignores case. */
  function ToUpperCase(s: string): (r: string)
    ensures |r| == |s|
  {
    if s == [] then []
    else [if 'a' <= s[0] <= 'z' then (s[0] as int - 32) as char else s[0]] + ToUpperCase(s[1..])
  }

  /** Normalisation ignores case: a string and its upper-cased form
      normalise to the same search string. */
  lemma {:induction false} TransformIgnoresCase(s: string)
    ensures TransformForSearch(ToUpperCase(s)) == TransformForSearch(s)
  {
    if s != [] {
      var u := ToUpperCase(s);
      TransformIgnoresCase(s[1..]);
      assert s == [s[0]] + s[1..];
      assert u == [u[0]] + ToUpperCase(s[1..]);
      TransformAppend([s[0]], s[1..]);
      TransformAppend([u[0]], ToUpperCase(s[1..]));
      TransformChar(s[0]);
      TransformChar(u[0]);
    } else {
      assert ToUpperCase(s) == [];
    }
  }

  /** The empty string normalises to itself, and so does every string that
      is already over [a-z0-9_]. */
  lemma {:induction false} TransformFixesSearchStrings(s: string)
    requires forall i | 0 <= i < |s| :: IsSearchChar(s[i])
    ensures TransformForSearch(s) == s
  {
    if s != [] {
      TransformFixesSearchStrings(s[1..]);
      assert s == [s[0]] + s[1..];
      TransformAppend([s[0]], s[1..]);
      TransformChar(s[0]);
    } else {
      assert TransformForSearch(s) == [];
    }
  }

  // ---------------------------------------------------------------------
  // isPhoneNumber: ^((8|\+7)[\- ]?)?(\(?\d{3}\)?[\- ]?)?[\d\- ]{3,15}$
  // ---------------------------------------------------------------------

  predicate IsDigit(c: char) {
    '0' <= c <= '9'
  }

  /** `[\- ]` */
  predicate IsDashOrSpace(c: char) {
    c == '-' || c == ' '
  }

  /** A character that may appear in an accepted phone number. */
  predicate IsPhoneChar(c: char) {
    IsDigit(c) || IsDashOrSpace(c) || c == '+' || c == '(' || c == ')'
  }

  /** `((8|\+7)[\- ]?)?`: nothing, or the trunk code with an optional separator. */
  predicate IsTrunkPrefix(p: string) {
    || p == []
    || p == "8" || p == "+7"
    || (|p| >= 2 && (p[..|p| - 1] == "8" || p[..|p| - 1] == "+7") && IsDashOrSpace(p[|p| - 1]))
  }

  /** `(\(?\d{3}\)?[\- ]?)?`: nothing, or three digits, optionally in
      parentheses, with an optional separator. An opening or closing
      parenthesis that is present must be taken, since no other part of
      the group can match it. */
  predicate IsAreaCode(p: string) {
    || p == []
    || var q := if p[0] == '(' then p[1..] else p;
       && |q| >= 3 && IsDigit(q[0]) && IsDigit(q[1]) && IsDigit(q[2])
       && var t := if |q| > 3 && q[3] == ')' then q[4..] else q[3..];
          t == [] || (|t| == 1 && IsDashOrSpace(t[0]))
  }

  /** `[\d\- ]{3,15}` */
  predicate IsDigitRun(p: string) {
    3 <= |p| <= 15 && forall i | 0 <= i < |p| :: IsDigit(p[i]) || IsDashOrSpace(p[i])
  }

  /** isPhoneNumber: the whole string splits into the three groups of the pattern. */
  predicate IsPhoneNumber(number: string)
    ensures IsPhoneNumber(number) ==> 3 <= |number| <= 24
  {
    exists i | 0 <= i <= |number| ::
      exists j | i <= j <= |number| ::
        IsTrunkPrefix(number[..i]) && IsAreaCode(number[i..j]) && IsDigitRun(number[j..])
  }

  lemma TrunkPrefixShape(p: string)
    requires IsTrunkPrefix(p)
    ensures |p| <= 3 && forall k | 0 <= k < |p| :: IsPhoneChar(p[k])
  {
    if |p| >= 2 && (p[..|p| - 1] == "8" || p[..|p| - 1] == "+7") {
      forall k | 0 <= k < |p| - 1 ensures IsPhoneChar(p[k]) {
        assert p[k] == p[..|p| - 1][k];
      }
    }
  }

  lemma AreaCodeShape(p: string)
    requires IsAreaCode(p)
    ensures |p| <= 6 && forall k | 0 <= k < |p| :: IsPhoneChar(p[k])
  {
    if p != [] {
      var q := if p[0] == '(' then p[1..] else p;
      var d := |p| - |q|;
      forall k | 0 <= k < |p| ensures IsPhoneChar(p[k]) {
        if k >= d {
          assert p[k] == q[k - d];
        }
      }
    }
  }

  /** Every accepted phone number has between 3 and 24 characters, all of
      them digits, '+', '(', ')', '-' or ' '. */
  lemma PhoneNumberShape(number: string)
    requires IsPhoneNumber(number)
    ensures 3 <= |number| <= 24
    ensures forall k | 0 <= k < |number| :: IsPhoneChar(number[k])
  {
    var i, j :| 0 <= i <= j <= |number|
      && IsTrunkPrefix(number[..i]) && IsAreaCode(number[i..j]) && IsDigitRun(number[j..]);
    TrunkPrefixShape(number[..i]);
    AreaCodeShape(number[i..j]);
    PartsOfPhoneChars(number, i, j);
  }

  /** A string cut in three parts made of phone characters is made of phone characters. */
  lemma PartsOfPhoneChars(number: string, i: int, j: int)
    requires 0 <= i <= j <= |number|
    requires forall k | 0 <= k < i :: IsPhoneChar(number[..i][k])
    requires forall k | 0 <= k < j - i :: IsPhoneChar(number[i..j][k])
    requires forall k | 0 <= k < |number| - j :: IsDigit(number[j..][k]) || IsDashOrSpace(number[j..][k])
    ensures forall k | 0 <= k < |number| :: IsPhoneChar(number[k])
  {
    forall k | 0 <= k < |number| ensures IsPhoneChar(number[k]) {
      if k < i {
        assert number[k] == number[..i][k];
      } else if k < j {
        assert number[k] == number[i..j][k - i];
      } else {
        assert number[k] == number[j..][k - j];
      }
    }
  }

  /** Any run of 3 to 15 digits is a phone number. */
  lemma DigitsArePhoneNumber(number: string)
    requires 3 <= |number| <= 15
    requires forall k | 0 <= k < |number| :: IsDigit(number[k])
    ensures IsPhoneNumber(number)
  {
    assert IsTrunkPrefix(number[..0]) && IsAreaCode(number[0..0]) && IsDigitRun(number[0..]);
  }

  /** The Russian mobile format with dashes is accepted. */
  lemma DashedMobileIsPhoneNumber()
    ensures IsPhoneNumber("8-900-123-45-67")
  {
    var s := "8-900-123-45-67";
    assert s[..2] == "8-" && s[..2][..1] == "8";
    assert s[2..6] == "900-";
    assert IsTrunkPrefix(s[..2]) && IsAreaCode(s[2..6]) && IsDigitRun(s[6..]);
  }

  /** The international format with parentheses is accepted. */
  lemma BracketedMobileIsPhoneNumber()
    ensures IsPhoneNumber("+7 (900) 123-45-67")
  {
    var s := "+7 (900) 123-45-67";
    assert s[..3] == "+7 " && s[..3][..2] == "+7";
    assert s[3..9] == "(900) ";
    assert IsTrunkPrefix(s[..3]) && IsAreaCode(s[3..9]) && IsDigitRun(s[9..]);
  }

  // ---------------------------------------------------------------------
  // isEmail:
  // ([a-zA-Z0-9]+(?:[._+-][a-zA-Z0-9]+)*)@([a-zA-Z0-9]+(?:[.-][a-zA-Z0-9]+)*[.][a-zA-Z]{2,})
  // ---------------------------------------------------------------------

  predicate IsAsciiLetter(c: char) {
    'a' <= c <= 'z' || 'A' <= c <= 'Z'
  }

  predicate IsAsciiAlnum(c: char) {
    IsAsciiLetter(c) || IsDigit(c)
  }

  /** `[._+-]` */
  predicate IsLocalSeparator(c: char) {
    c == '.' || c == '_' || c == '+' || c == '-'
  }

  /** `[.-]` */
  predicate IsDomainSeparator(c: char) {
    c == '.' || c == '-'
  }

  /** `[a-zA-Z0-9]+(?:[sep][a-zA-Z0-9]+)*`: runs of letters and digits joined
      by single separators; it starts with a letter or digit, and every
      separator is followed by a letter or digit. */
  predicate IsJoinedRuns(s: string, isSeparator: char -> bool) {
    && |s| > 0 && IsAsciiAlnum(s[0])
    && forall i | 0 <= i < |s| ::
         IsAsciiAlnum(s[i]) || (isSeparator(s[i]) && i + 1 < |s| && IsAsciiAlnum(s[i + 1]))
  }

  /** The top-level domain `[.][a-zA-Z]{2,}` starts at index `m` of `d`. */
  predicate IsTopLevelAt(d: string, m: int) {
    && 0 <= m < |d| && d[m] == '.' && |d| - m >= 3
    && forall k | m < k < |d| :: IsAsciiLetter(d[k])
  }

  /** The part after '@': joined runs, a dot, then two or more letters. */
  predicate IsDomain(d: string) {
    exists m | 0 <= m < |d| :: IsTopLevelAt(d, m) && IsJoinedRuns(d[..m], IsDomainSeparator)
  }

  /** The '@' of `email` stands at index `k`, with a valid local part
      before it and a valid domain after it. */
  predicate IsEmailAt(email: string, k: int) {
    && 0 <= k < |email| && email[k] == '@'
    && IsJoinedRuns(email[..k], IsLocalSeparator) && IsDomain(email[k + 1..])
  }

  /** isEmail: a local part, '@', a domain. */
  predicate IsEmail(email: string)
    ensures IsEmail(email) ==> '@' in email
  {
    exists k | 0 <= k < |email| :: IsEmailAt(email, k)
  }

  lemma JoinedRunsHaveNoAt(s: string, isSeparator: char -> bool)
    requires IsJoinedRuns(s, isSeparator)
    requires !isSeparator('@')
    ensures multiset(s)['@'] == 0
  {
    assert '@' !in s;
  }

  lemma DomainHasNoAt(d: string)
    requires IsDomain(d)
    ensures multiset(d)['@'] == 0
  {
    var m :| 0 <= m < |d| && IsTopLevelAt(d, m) && IsJoinedRuns(d[..m], IsDomainSeparator);
    JoinedRunsHaveNoAt(d[..m], IsDomainSeparator);
    assert '@' !in d[m..] by {
      forall i | 0 <= i < |d[m..]| ensures d[m..][i] != '@' {
        assert i == 0 || IsAsciiLetter(d[m + i]);
      }
    }
    assert d == d[..m] + d[m..];
  }

  /** An accepted address ends with its domain's top-level part. */
  lemma EmailEnding(email: string, k: int)
    requires IsEmailAt(email, k)
    ensures exists n | 0 <= n < |email| :: IsTopLevelAt(email, n)
  {
    var d := email[k + 1..];
    var m :| 0 <= m < |d| && IsTopLevelAt(d, m) && IsJoinedRuns(d[..m], IsDomainSeparator);
    var n := k + 1 + m;
    forall j | n < j < |email| ensures IsAsciiLetter(email[j]) {
      assert email[j] == d[j - k - 1];
    }
    assert IsTopLevelAt(email, n);
  }

  /** The '@' at index `k` is the only one. */
  lemma EmailHasOneAt(email: string, k: int)
    requires IsEmailAt(email, k)
    ensures multiset(email)['@'] == 1
  {
    JoinedRunsHaveNoAt(email[..k], IsLocalSeparator);
    DomainHasNoAt(email[k + 1..]);
    assert email == email[..k] + [email[k]] + email[k + 1..];
  }

  /** Every accepted address holds exactly one '@', starts with a letter or
      digit, and ends with a dot and two or more ASCII letters. */
  lemma EmailShape(email: string)
    requires IsEmail(email)
    ensures multiset(email)['@'] == 1
    ensures IsAsciiAlnum(email[0])
    ensures exists n | 0 <= n < |email| :: IsTopLevelAt(email, n)
  {
    var k :| 0 <= k < |email| && IsEmailAt(email, k);
    EmailHasOneAt(email, k);
    assert email[0] == email[..k][0];
    EmailEnding(email, k);
  }

  lemma SampleLocalPart()
    ensures IsJoinedRuns("ivan.petrov", IsLocalSeparator)
  {
  }

  lemma SampleDomain()
    ensures IsDomain("mail.ru")
  {
    var d := "mail.ru";
    assert d[..4] == "mail";
    assert IsJoinedRuns(d[..4], IsDomainSeparator);
    assert IsTopLevelAt(d, 4);
  }

  /** A typical address is accepted. */
  lemma DottedAddressIsEmail()
    ensures IsEmail("ivan.petrov@mail.ru")
  {
    var e := "ivan.petrov@mail.ru";
    SampleLocalPart();
    SampleDomain();
    assert e[..11] == "ivan.petrov" && e[12..] == "mail.ru";
    assert IsEmailAt(e, 11);
  }

  /** An address is rejected unless a dot stands at least three characters
      before its end. */
  lemma NoTopLevelDomainIsNotEmail(email: string)
    requires forall n | 0 <= n < |email| - 2 :: email[n] != '.'
    ensures !IsEmail(email)
  {
    if IsEmail(email) {
      EmailShape(email);
    }
  }

  /** An address without a top-level domain, or with a one-letter one, is rejected. */
  lemma ShortDomainsAreNotEmail()
    ensures !IsEmail("ivan@mail")
    ensures !IsEmail("ivan@mail.r")
  {
    NoTopLevelDomainIsNotEmail("ivan@mail");
    NoTopLevelDomainIsNotEmail("ivan@mail.r");
  }
}
