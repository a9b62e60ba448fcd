/** The pure helpers of utils.py: reading a data date out of an uploaded
    file's name, and the administrator password check. */
module Utils {
  import opened Cells

  // ---------------------------------------------------------------- patterns

  /** `\d`, restricted to ASCII digits. */
  predicate IsDigit(c: char) {
    '0' <= c <= '9'
  }

  /** `n` digits start at position `i` of `s`. */
  predicate DigitsAt(s: string, i: nat, n: nat) {
    i + n <= |s| && forall k :: i <= k < i + n ==> IsDigit(s[k])
  }

  /** The regular expression `\d{4}-\d{2}-\d{2}` matches at position `i`. */
  predicate DashedAt(s: string, i: nat) {
    && i + 10 <= |s|
    && DigitsAt(s, i, 4) && s[i + 4] == '-'
    && DigitsAt(s, i + 5, 2) && s[i + 7] == '-'
    && DigitsAt(s, i + 8, 2)
  }

  /** The regular expression `(\d{4})(\d{2})(\d{2})` matches at position `i`. */
  predicate CompactAt(s: string, i: nat) {
    DigitsAt(s, i, 8)
  }

  /** `re.search`: the leftmost position at or after `i` where `at` matches. */
  function Search(s: string, i: nat, at: (string, nat) -> bool): (r: Option<nat>)
    requires i <= |s|
    ensures r.Some? ==> i <= r.value <= |s| && at(s, r.value)
    ensures r.Some? ==> forall k :: i <= k < r.value ==> !at(s, k)
    ensures r.None? ==> forall k :: i <= k <= |s| ==> !at(s, k)
    decreases |s| - i
  {
    if at(s, i) then Some(i)
    else if i == |s| then None
    else Search(s, i + 1, at)
  }

  /** A match with none before it is the one `re.search` reports. */
  lemma SearchFinds(s: string, i: nat, at: (string, nat) -> bool)
    requires i <= |s| && at(s, i)
    requires forall k :: 0 <= k < i ==> !at(s, k)
    ensures Search(s, 0, at) == Some(i)
  {
  }

  // ---------------------------------------------------------------- dates

  function DigitValue(c: char): int {
    c as int - '0' as int
  }

  /** The decimal number written by the `n` characters from position `i`. */
  function Number(s: string, i: nat, n: nat): int
    requires i + n <= |s|
  {
    if n == 0 then 0 else Number(s, i, n - 1) * 10 + DigitValue(s[i + n - 1])
  }

  /** A number depends only on the characters that write it. */
  lemma {:induction false} NumberLocal(s: string, t: string, i: nat, j: nat, n: nat)
    requires i + n <= |s| && j + n <= |t|
    requires s[i..i + n] == t[j..j + n]
    ensures Number(s, i, n) == Number(t, j, n)
  {
    if n > 0 {
      assert s[i..i + (n - 1)] == s[i..i + n][..n - 1];
      assert t[j..j + (n - 1)] == t[j..j + n][..n - 1];
      NumberLocal(s, t, i, j, n - 1);
      assert s[i + n - 1] == s[i..i + n][n - 1];
      assert t[j + n - 1] == t[j..j + n][n - 1];
    }
  }

  predicate IsLeapYear(y: int) {
    y % 4 == 0 && (y % 100 != 0 || y % 400 == 0)
  }

  function DaysInMonth(y: int, m: int): int
    requires 1 <= m <= 12
  {
    if m == 2 then (if IsLeapYear(y) then 29 else 28)
    else if m == 4 || m == 6 || m == 9 || m == 11 then 30
    else 31
  }

  /** A date of the proleptic Gregorian calendar that `datetime` accepts. */
  predicate ValidDate(y: int, m: int, d: int) {
    1 <= y && 1 <= m <= 12 && 1 <= d <= DaysInMonth(y, m)
  }

  /** `datetime.strptime(d, '%Y-%m-%d')` succeeds on a string of the form
      `dddd-dd-dd`. */
  predicate IsDateString(d: string) {
    && |d| == 10 && DashedAt(d, 0)
    && ValidDate(Number(d, 0, 4), Number(d, 5, 2), Number(d, 8, 2))
  }

  /** The first attempt: the leftmost `dddd-dd-dd`, returned verbatim when it
      is a real date; a later dashed match is never tried. */
  function DashedDate(s: string): (r: Option<string>)
    ensures r.Some? ==> IsDateString(r.value)
  {
    match Search(s, 0, DashedAt)
    case Some(i) => if IsDateString(s[i..i + 10]) then Some(s[i..i + 10]) else None
    case None => None
  }

  /** The digits at `i..i+8` rewritten as `dddd-dd-dd`. */
  function Dashes(s: string, i: nat): (d: string)
    requires i + 8 <= |s|
    ensures |d| == 10 && d[4] == '-' && d[7] == '-'
    ensures forall k :: 0 <= k < 4 ==> d[k] == s[i + k]
    ensures forall k :: 5 <= k < 7 ==> d[k] == s[i + k - 1]
    ensures forall k :: 8 <= k < 10 ==> d[k] == s[i + k - 2]
  {
    s[i..i + 4] + "-" + s[i + 4..i + 6] + "-" + s[i + 6..i + 8]
  }

  /** The second attempt: the leftmost run of 8 digits, read as year, month
      and day. */
  function CompactDate(s: string): (r: Option<string>)
    ensures r.Some? ==> IsDateString(r.value)
  {
    match Search(s, 0, CompactAt)
    case Some(i) => if IsDateString(Dashes(s, i)) then Some(Dashes(s, i)) else None
    case None => None
  }

  /** `extract_date_from_filename`. */
  function ExtractDateFromFilename(filename: string): (r: Option<string>)
    ensures r.Some? ==> IsDateString(r.value)
    ensures r.Some? ==> |r.value| == 10 && r.value[4] == '-' && r.value[7] == '-'
    ensures r.None? <==> DashedDate(filename).None? && CompactDate(filename).None?
  {
    match DashedDate(filename)
    case Some(d) => Some(d)
    case None => CompactDate(filename)
  }

  /** A date is valid exactly when its numbers form a calendar date. */
  lemma DashedValidity(s: string, i: nat)
    requires DashedAt(s, i)
    ensures IsDateString(s[i..i + 10]) <==> ValidDate(Number(s, i, 4), Number(s, i + 5, 2), Number(s, i + 8, 2))
  {
    var d := s[i..i + 10];
    assert forall k :: 0 <= k < 10 ==> d[k] == s[i + k];
    assert d[0..4] == s[i..i + 4];
    assert d[5..7] == s[i + 5..i + 7];
    assert d[8..10] == s[i + 8..i + 10];
    NumberLocal(d, s, 0, i, 4);
    NumberLocal(d, s, 5, i + 5, 2);
    NumberLocal(d, s, 8, i + 8, 2);
  }

  /** The dashed form wins: a valid leftmost `dddd-dd-dd` is returned even when a
      run of 8 digits comes earlier. */
  lemma DashedTakesPriority(s: string, i: nat)
    requires DashedAt(s, i) && forall k :: 0 <= k < i ==> !DashedAt(s, k)
    requires ValidDate(Number(s, i, 4), Number(s, i + 5, 2), Number(s, i + 8, 2))
    ensures ExtractDateFromFilename(s) == Some(s[i..i + 10])
  {
    SearchFinds(s, i, DashedAt);
    DashedValidity(s, i);
  }

  /** Only the first dashed match is checked: when it is not a date, the
      result is whatever the compact pattern gives. */
  lemma FirstDashedOnly(s: string, i: nat)
    requires DashedAt(s, i) && forall k :: 0 <= k < i ==> !DashedAt(s, k)
    requires !ValidDate(Number(s, i, 4), Number(s, i + 5, 2), Number(s, i + 8, 2))
    ensures ExtractDateFromFilename(s) == CompactDate(s)
  {
    SearchFinds(s, i, DashedAt);
    DashedValidity(s, i);
  }

  /** Without a dashed match the leftmost 8-digit run decides, as a date or
      not at all. */
  lemma CompactLeftmost(s: string, i: nat)
    requires forall k :: 0 <= k <= |s| ==> !DashedAt(s, k)
    requires CompactAt(s, i) && forall k :: 0 <= k < i ==> !CompactAt(s, k)
    ensures ExtractDateFromFilename(s) == if IsDateString(Dashes(s, i)) then Some(Dashes(s, i)) else None
  {
    SearchFinds(s, i, CompactAt);
  }

  /** Without an 8-digit run the second attempt finds nothing. */
  lemma NoCompactNone(s: string)
    requires forall k :: 0 <= k <= |s| ==> !CompactAt(s, k)
    ensures CompactDate(s) == None
  {
  }

  /** A name with no match of either pattern has no date. */
  lemma NoMatchNone(s: string)
    requires forall k :: 0 <= k <= |s| ==> !DashedAt(s, k) && !CompactAt(s, k)
    ensures ExtractDateFromFilename(s) == None
  {
  }

  /** A date string with any suffix starts with a dashed match at 0. */
  lemma DateWithSuffix(d: string, suffix: string)
    requires IsDateString(d)
    ensures ExtractDateFromFilename(d + suffix) == Some(d)
  {
    var s := d + suffix;
    assert forall k :: 0 <= k < 10 ==> s[k] == d[k];
    assert DashedAt(s, 0);
    SearchFinds(s, 0, DashedAt);
    assert s[0..10] == d;
  }

  /** Extracting from an extracted date, or from the file named after it,
      gives the date back. */
  lemma ExtractIdempotent(f: string)
    requires ExtractDateFromFilename(f).Some?
    ensures var d := ExtractDateFromFilename(f).value;
      ExtractDateFromFilename(d) == Some(d) && ExtractDateFromFilename(d + ".csv") == Some(d)
  {
    var d := ExtractDateFromFilename(f).value;
    DateWithSuffix(d, "");
    assert d + "" == d;
    DateWithSuffix(d, ".csv");
  }

  /** A name without '-' has no dashed match. */
  lemma NoDash(s: string)
    requires '-' !in s
    ensures forall k :: 0 <= k <= |s| ==> !DashedAt(s, k)
  {
  }

  /** No dashed match starts before `n` when positions 4 to `n + 3` hold no '-'. */
  lemma NoDashBefore(s: string, n: nat)
    requires n + 4 <= |s| && '-' !in s[4..n + 4]
    ensures forall k :: 0 <= k < n ==> !DashedAt(s, k)
  {
    forall k | 0 <= k < n
      ensures !DashedAt(s, k)
    {
      assert s[4..n + 4][k] == s[k + 4];
    }
  }

  /** A non-digit at `p` blocks every 8-digit run across it. */
  lemma NonDigitBlocks(s: string, p: nat)
    requires p < |s| && !IsDigit(s[p])
    ensures forall k: nat :: k <= p < k + 8 ==> !CompactAt(s, k)
  {
  }

  /** The rewritten digits are a date exactly when their numbers are one. */
  lemma CompactValidity(s: string, i: nat)
    requires CompactAt(s, i)
    ensures IsDateString(Dashes(s, i)) <==> ValidDate(Number(s, i, 4), Number(s, i + 4, 2), Number(s, i + 6, 2))
  {
    var d := Dashes(s, i);
    assert d[0..4] == s[i..i + 4];
    assert d[5..7] == s[i + 4..i + 6];
    assert d[8..10] == s[i + 6..i + 8];
    NumberLocal(d, s, 0, i, 4);
    NumberLocal(d, s, 5, i + 4, 2);
    NumberLocal(d, s, 8, i + 6, 2);
  }

  /** Without '-' in the name, the leftmost 8-digit run is the date when its
      numbers form one. */
  lemma CompactByNumbers(s: string, i: nat)
    requires '-' !in s
    requires CompactAt(s, i) && forall k :: 0 <= k < i ==> !CompactAt(s, k)
    ensures ExtractDateFromFilename(s) ==
              if ValidDate(Number(s, i, 4), Number(s, i + 4, 2), Number(s, i + 6, 2)) then Some(Dashes(s, i)) else None
  {
    NoDash(s);
    CompactLeftmost(s, i);
    CompactValidity(s, i);
  }

  /** `s` holds neither a digit nor a '-'. */
  predicate Plain(s: string) {
    forall k :: 0 <= k < |s| ==> !IsDigit(s[k]) && s[k] != '-'
  }

  lemma NoDashAround(pre: string, digits: string, post: string)
    requires Plain(pre) && |digits| == 8 && CompactAt(digits, 0) && '-' !in post
    ensures '-' !in pre + digits + post
  {
    assert '-' !in pre by {
      forall k | 0 <= k < |pre| ensures pre[k] != '-' { }
    }
    assert '-' !in digits by {
      forall k | 0 <= k < |digits| ensures digits[k] != '-' { assert IsDigit(digits[k]); }
    }
  }

  lemma FirstRunAfterPrefix(pre: string, digits: string, post: string)
    requires Plain(pre) && |digits| == 8 && CompactAt(digits, 0)
    ensures CompactAt(pre + digits + post, |pre|)
    ensures forall k :: 0 <= k < |pre| ==> !CompactAt(pre + digits + post, k)
  {
    var s := pre + digits + post;
    assert forall k :: 0 <= k < 8 ==> s[|pre| + k] == digits[k];
    forall k | 0 <= k < |pre|
      ensures !CompactAt(s, k)
    {
      assert s[k] == pre[k];
    }
  }

  /** The numbers and the rewritten date of a run depend only on its digits. */
  lemma RunLocal(s: string, i: nat, digits: string)
    requires i + 8 <= |s| && |digits| == 8 && s[i..i + 8] == digits
    ensures Number(s, i, 4) == Number(digits, 0, 4)
    ensures Number(s, i + 4, 2) == Number(digits, 4, 2)
    ensures Number(s, i + 6, 2) == Number(digits, 6, 2)
    ensures Dashes(s, i) == Dashes(digits, 0)
  {
    assert forall k :: 0 <= k < 8 ==> digits[k] == s[i + k];
    assert s[i..i + 4] == digits[0..4];
    NumberLocal(s, digits, i, 0, 4);
    assert s[i + 4..i + 6] == digits[4..6];
    NumberLocal(s, digits, i + 4, 4, 2);
    assert s[i + 6..i + 8] == digits[6..8];
    NumberLocal(s, digits, i + 6, 6, 2);
  }

  /** Eight digits after a plain prefix, in a name without '-', are read as
      year, month and day. */
  lemma CompactAfterPrefix(pre: string, digits: string, post: string)
    requires Plain(pre) && |digits| == 8 && CompactAt(digits, 0) && '-' !in post
    ensures ExtractDateFromFilename(pre + digits + post) ==
              if ValidDate(Number(digits, 0, 4), Number(digits, 4, 2), Number(digits, 6, 2))
              then Some(Dashes(digits, 0)) else None
  {
    var s := pre + digits + post;
    NoDashAround(pre, digits, post);
    FirstRunAfterPrefix(pre, digits, post);
    CompactByNumbers(s, |pre|);
    assert s[|pre|..|pre| + 8] == digits;
    RunLocal(s, |pre|, digits);
  }

  /** A leap day after any plain prefix: "x20240229.csv" gives "2024-02-29". */
  lemma CompactLeapDay(pre: string, post: string)
    requires Plain(pre) && '-' !in post
    ensures ExtractDateFromFilename(pre + "20240229" + post) == Some("2024-02-29")
  {
    var d := "20240229";
    assert CompactAt(d, 0);
    assert Number(d, 0, 4) == 2024 && Number(d, 4, 2) == 2 && Number(d, 6, 2) == 29;
    assert Dashes(d, 0) == "2024-02-29";
    CompactAfterPrefix(pre, d, post);
  }

  /** 2023 is not a leap year: "20230229" gives None. */
  lemma CompactNoLeapDay(pre: string, post: string)
    requires Plain(pre) && '-' !in post
    ensures ExtractDateFromFilename(pre + "20230229" + post) == None
  {
    var d := "20230229";
    assert CompactAt(d, 0);
    assert Number(d, 0, 4) == 2023 && Number(d, 4, 2) == 2 && Number(d, 6, 2) == 29;
    CompactAfterPrefix(pre, d, post);
  }

  /** Only the leftmost 8 digits are tried: "12345678" is read as month 56 and
      rejected, and a valid run after it (as in "123456780101") is never tried. */
  lemma CompactLeftmostOnly(pre: string, post: string)
    requires Plain(pre) && '-' !in post
    ensures ExtractDateFromFilename(pre + "12345678" + post) == None
  {
    var d := "12345678";
    assert CompactAt(d, 0);
    assert Number(d, 4, 2) == 56;
    CompactAfterPrefix(pre, d, post);
  }

  lemma InvalidFirstFacts()
    ensures var s := "2024-13-01_2024-01-05";
      |s| == 21 && DashedAt(s, 0) && Number(s, 5, 2) == 13 &&
      !IsDigit(s[4]) && !IsDigit(s[7]) && !IsDigit(s[10]) && !IsDigit(s[15]) && !IsDigit(s[18])
  {
  }

  /** An invalid first dashed date hides a valid later one. */
  lemma InvalidFirstDashed(s: string)
    requires s == "2024-13-01_2024-01-05"
    ensures ExtractDateFromFilename(s) == None
  {
    InvalidFirstFacts();
    FirstDashedOnly(s, 0);
    NonDigitBlocks(s, 4);
    NonDigitBlocks(s, 7);
    NonDigitBlocks(s, 10);
    NonDigitBlocks(s, 15);
    NonDigitBlocks(s, 18);
    NoCompactNone(s);
  }

  lemma DashedAfterDigitsFacts()
    ensures var s := "20240101x2024-02-29.csv";
      |s| == 23 && '-' !in s[4..13] && DashedAt(s, 9) &&
      Number(s, 9, 4) == 2024 && Number(s, 14, 2) == 2 && Number(s, 17, 2) == 29 &&
      s[9..19] == "2024-02-29"
  {
  }

  /** A valid dashed date wins over an earlier 8-digit run. */
  lemma DashedBeatsEarlierCompact(s: string)
    requires s == "20240101x2024-02-29.csv"
    ensures ExtractDateFromFilename(s) == Some("2024-02-29")
  {
    DashedAfterDigitsFacts();
    NoDashBefore(s, 9);
    DashedTakesPriority(s, 9);
  }

  // ---------------------------------------------------------------- password

  const CorrectPassword: string := "admin"

  /** `check_password`: the fixed administrator password. */
  function CheckPassword(input: string): (ok: bool)
    ensures ok <==> input == CorrectPassword
  {
    input == CorrectPassword
  }

  /** Exactly one password is accepted, and the comparison is case- and
      whitespace-sensitive. */
  lemma PasswordExact(a: string, b: string)
    requires CheckPassword(a) && CheckPassword(b)
    ensures a == b == "admin"
    ensures !CheckPassword("Admin") && !CheckPassword("admin ") && !CheckPassword("")
  {
  }
}
