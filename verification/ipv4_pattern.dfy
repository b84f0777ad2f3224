/** The IPv4 half of the nameserver classifier: Go's `regexp.MatchString`
    with the pattern `^(((25[0-5]|2[0-4][0-9]|[01]?[0-9][0-9]?)(\.|$)){4})`.

    The pattern is first given a reference meaning, piece by piece, as a
    relation on positions of the host string: `P(s, i, j)` says that piece
    `P` of the pattern can consume `s[i..j]`. Every choice the regular
    expression leaves open (which alternative, whether an optional class is
    present, where a repetition ends) is an existential, as in a
    backtracking matcher, so only whether a match exists is described,
    which is all `MatchString` reports.

    `IsMayOnlyIPv4` is a deterministic scanner over the same string, and its
    contract is that it agrees with the pattern on every input. */
module IPv4Pattern {

  predicate IsDigit(c: char) {
    '0' <= c <= '9'
  }

  /* ---------------- the pattern, piece by piece ---------------- */

  /** `25[0-5]` consumes `s[i..j]` */
  predicate Octet25(s: string, i: nat, j: nat) {
    j == i + 3 <= |s| && s[i] == '2' && s[i + 1] == '5' && '0' <= s[i + 2] <= '5'
  }

  /** `2[0-4][0-9]` consumes `s[i..j]` */
  predicate Octet2x(s: string, i: nat, j: nat) {
    j == i + 3 <= |s| && s[i] == '2' && '0' <= s[i + 1] <= '4' && IsDigit(s[i + 2])
  }

  /** `[01]?[0-9][0-9]?` consumes `s[i..j]`; one disjunct per choice of the
      two optional classes */
  predicate OctetShort(s: string, i: nat, j: nat) {
    // neither optional class present
    || (j == i + 1 <= |s| && IsDigit(s[i]))
    // only the trailing `[0-9]?`
    || (j == i + 2 <= |s| && IsDigit(s[i]) && IsDigit(s[i + 1]))
    // only the leading `[01]?`
    || (j == i + 2 <= |s| && (s[i] == '0' || s[i] == '1') && IsDigit(s[i + 1]))
    // both
    || (j == i + 3 <= |s| && (s[i] == '0' || s[i] == '1') && IsDigit(s[i + 1]) && IsDigit(s[i + 2]))
  }

  /** `(25[0-5]|2[0-4][0-9]|[01]?[0-9][0-9]?)` consumes `s[i..j]` */
  predicate OctetMatch(s: string, i: nat, j: nat) {
    Octet25(s, i, j) || Octet2x(s, i, j) || OctetShort(s, i, j)
  }

  /** `(\.|$)` consumes `s[j..k]`: a dot, or nothing at the very end of the
      text (Go's `$` outside multi-line mode) */
  predicate SeparatorMatch(s: string, j: nat, k: nat) {
    (j < |s| && s[j] == '.' && k == j + 1) || (j == |s| && k == j)
  }

  /** One repetition of the group `((octet)(\.|$))` consumes `s[i..k]` */
  ghost predicate GroupMatch(s: string, i: nat, k: nat) {
    exists j: nat :: OctetMatch(s, i, j) && SeparatorMatch(s, j, k)
  }

  /** `n` consecutive repetitions of the group consume `s[i..k]` */
  ghost predicate GroupsMatch(s: string, i: nat, k: nat, n: nat)
    decreases n
  {
    if n == 0 then k == i
    else exists m: nat :: GroupMatch(s, i, m) && GroupsMatch(s, m, k, n - 1)
  }

  /** `regexp.MatchString` reports a match: `^` pins the start of the match
      to position 0, `{4}` asks for exactly four groups, and with no `$`
      after them the match may stop anywhere in the host */
  ghost predicate MatchesIPv4Regex(s: string) {
    exists k: nat :: GroupsMatch(s, 0, k, 4)
  }

  /* ---------------- the deterministic scanner ---------------- */

  /** End of the run of decimal digits that starts at `i` */
  function DigitRunEnd(s: string, i: nat): (j: nat)
    requires i <= |s|
    ensures i <= j <= |s|
    ensures forall p :: i <= p < j ==> IsDigit(s[p])
    ensures j == |s| || !IsDigit(s[j])
    decreases |s| - i
  {
    if i == |s| || !IsDigit(s[i]) then i else DigitRunEnd(s, i + 1)
  }

  function DigitValue(c: char): nat
    requires IsDigit(c)
  {
    c as int - '0' as int
  }

  predicate AllDigits(s: string, i: nat, j: nat)
    requires i <= j <= |s|
  {
    forall p :: i <= p < j ==> IsDigit(s[p])
  }

  /** The number the decimal digits `s[i..j]` spell */
  function DecimalValue(s: string, i: nat, j: nat): nat
    requires i <= j <= |s|
    requires AllDigits(s, i, j)
    decreases j - i
  {
    if j == i then 0 else 10 * DecimalValue(s, i, j - 1) + DigitValue(s[j - 1])
  }

  /** `s[i..j]` is one to three decimal digits whose value is at most 255 */
  predicate OctetText(s: string, i: nat, j: nat) {
    && i < j <= i + 3
    && j <= |s|
    && AllDigits(s, i, j)
    && DecimalValue(s, i, j) <= 255
  }

  /** Reads `n` groups from position `i`: each is the whole digit run found
      there, which must be an octet and must be followed by a dot or by the
      end of the host */
  function ScanGroups(s: string, i: nat, n: nat): bool
    requires i <= |s|
    decreases n
  {
    if n == 0 then true
    else
      var j := DigitRunEnd(s, i);
      && OctetText(s, i, j)
      && if j == |s| then ScanGroups(s, j, n - 1)
         else s[j] == '.' && ScanGroups(s, j + 1, n - 1)
  }

  /** `isMayOnlyIPv4`: the host passes the IPv4 pattern exactly when the
      scanner reads four groups from its start */
  function IsMayOnlyIPv4(host: string): (r: bool)
    ensures r <==> MatchesIPv4Regex(host)
  {
    ScannerAgreesWithRegex(host);
    ScanGroups(host, 0, 4)
  }

  /* ---------------- agreement of scanner and pattern ---------------- */

  /** The octet alternatives together accept exactly the one-to-three-digit
      numbers up to 255 (leading zeros allowed) */
  lemma OctetAlternatives(s: string, i: nat, j: nat)
    ensures OctetMatch(s, i, j) <==> OctetText(s, i, j)
  {
    if i < j <= i + 3 && j <= |s| && AllDigits(s, i, j) {
      var d0 := DigitValue(s[i]);
      assert DecimalValue(s, i, i + 1) == d0;
      if j >= i + 2 {
        assert DecimalValue(s, i, i + 2) == 10 * d0 + DigitValue(s[i + 1]);
      }
      if j == i + 3 {
        assert DecimalValue(s, i, j) == 100 * d0 + 10 * DigitValue(s[i + 1]) + DigitValue(s[i + 2]);
      }
    }
  }

  /** A group can only end where the digit run ends: the separator is a dot
      or the end of the text, neither of which is a digit */
  lemma GroupAtDigitRunEnd(s: string, i: nat, k: nat)
    requires i <= |s|
    ensures GroupMatch(s, i, k) <==>
              var j := DigitRunEnd(s, i); OctetText(s, i, j) && SeparatorMatch(s, j, k)
  {
    var j := DigitRunEnd(s, i);
    if GroupMatch(s, i, k) {
      var j': nat :| OctetMatch(s, i, j') && SeparatorMatch(s, j', k);
      OctetAlternatives(s, i, j');
      assert j' == j;
    }
    if OctetText(s, i, j) && SeparatorMatch(s, j, k) {
      OctetAlternatives(s, i, j);
      assert OctetMatch(s, i, j);
    }
  }

  lemma {:induction false} ScanGroupsMatchesPattern(s: string, i: nat, n: nat)
    requires i <= |s|
    ensures ScanGroups(s, i, n) <==> exists k: nat :: GroupsMatch(s, i, k, n)
    decreases n
  {
    if n == 0 {
      assert GroupsMatch(s, i, i, 0);
    } else {
      var j := DigitRunEnd(s, i);
      if ScanGroups(s, i, n) {
        ScanGroupsSound(s, i, n, j);
      }
      if exists k: nat :: GroupsMatch(s, i, k, n) {
        var k: nat :| GroupsMatch(s, i, k, n);
        ScanGroupsComplete(s, i, k, n, j);
      }
    }
  }

  /** One step of `ScanGroupsMatchesPattern`, scanner to pattern */
  lemma {:induction false} ScanGroupsSound(s: string, i: nat, n: nat, j: nat)
    requires i <= |s| && n > 0 && j == DigitRunEnd(s, i) && ScanGroups(s, i, n)
    ensures exists k: nat :: GroupsMatch(s, i, k, n)
    decreases n, 0
  {
    var m := if j == |s| then j else j + 1;
    GroupAtDigitRunEnd(s, i, m);
    ScanGroupsMatchesPattern(s, m, n - 1);
    var k: nat :| GroupsMatch(s, m, k, n - 1);
    assert GroupsMatch(s, i, k, n);
  }

  /** One step of `ScanGroupsMatchesPattern`, pattern to scanner */
  lemma {:induction false} ScanGroupsComplete(s: string, i: nat, k: nat, n: nat, j: nat)
    requires i <= |s| && n > 0 && j == DigitRunEnd(s, i) && GroupsMatch(s, i, k, n)
    ensures ScanGroups(s, i, n)
    decreases n, 0
  {
    var m: nat :| GroupMatch(s, i, m) && GroupsMatch(s, m, k, n - 1);
    GroupAtDigitRunEnd(s, i, m);
    assert m == if j == |s| then j else j + 1;
    ScanGroupsMatchesPattern(s, m, n - 1);
    assert GroupsMatch(s, m, k, n - 1);
  }

  lemma ScannerAgreesWithRegex(host: string)
    ensures ScanGroups(host, 0, 4) <==> MatchesIPv4Regex(host)
  {
    ScanGroupsMatchesPattern(host, 0, 4);
    if MatchesIPv4Regex(host) {
      var k: nat :| GroupsMatch(host, 0, k, 4);
      assert exists k': nat :: GroupsMatch(host, 0, k', 4);
    }
  }

  /* ---------------- what the pattern accepts, in plain terms ---------------- */

  /** `a` on its own is one to three digits with value at most 255 */
  predicate OctetString(a: string) {
    OctetText(a, 0, |a|)
  }

  /** Every accepted host starts with a digit; in particular it never starts
      with the `[` that brackets an IPv6 dial target */
  lemma AcceptedStartsWithDigit(host: string)
    requires IsMayOnlyIPv4(host)
    ensures |host| > 0 && IsDigit(host[0])
  {
    assert ScanGroups(host, 0, 4);
    assert OctetText(host, 0, DigitRunEnd(host, 0));
  }

  /** Every accepted host contains a dot: the first octet cannot be
      followed by the end of the host, since three more groups must follow */
  lemma AcceptedContainsDot(host: string)
    requires IsMayOnlyIPv4(host)
    ensures '.' in host
  {
    var j := DigitRunEnd(host, 0);
    assert ScanGroups(host, 0, 4);
    assert host[j] == '.';
  }

  /** The digit run in `x + y` that starts inside `y` is the run of `y`,
      moved along by `|x|` */
  lemma {:induction false} DigitRunEndShift(x: string, y: string, p: nat)
    requires p <= |y|
    ensures DigitRunEnd(x + y, |x| + p) == |x| + DigitRunEnd(y, p)
    decreases |y| - p
  {
    if p < |y| {
      assert (x + y)[|x| + p] == y[p];
      if IsDigit(y[p]) {
        DigitRunEndShift(x, y, p + 1);
      }
    }
  }

  /** Digits read inside `y` spell the same number inside `x + y` */
  lemma {:induction false} DecimalValueShift(x: string, y: string, i: nat, j: nat)
    requires i <= j <= |y| && AllDigits(y, i, j)
    ensures AllDigits(x + y, |x| + i, |x| + j)
    ensures DecimalValue(x + y, |x| + i, |x| + j) == DecimalValue(y, i, j)
    decreases j - i
  {
    forall p | |x| + i <= p < |x| + j
      ensures IsDigit((x + y)[p])
    {
      assert (x + y)[p] == y[p - |x|];
    }
    if j > i {
      DecimalValueShift(x, y, i, j - 1);
      assert (x + y)[|x| + j - 1] == y[j - 1];
    }
  }

  /** Digits read inside `x` spell the same number inside `x + y` */
  lemma {:induction false} DecimalValueExtend(x: string, y: string, i: nat, j: nat)
    requires i <= j <= |x| && AllDigits(x, i, j)
    ensures AllDigits(x + y, i, j)
    ensures DecimalValue(x + y, i, j) == DecimalValue(x, i, j)
    decreases j - i
  {
    forall p | i <= p < j
      ensures IsDigit((x + y)[p])
    {
      assert (x + y)[p] == x[p];
    }
    if j > i {
      DecimalValueExtend(x, y, i, j - 1);
      assert (x + y)[j - 1] == x[j - 1];
    }
  }

  /** Scanning inside `y` is unaffected by text put in front of it */
  lemma {:induction false} ScanGroupsShift(x: string, y: string, i: nat, n: nat)
    requires i <= |y|
    ensures ScanGroups(x + y, |x| + i, n) == ScanGroups(y, i, n)
    decreases n
  {
    if n > 0 {
      var j := DigitRunEnd(y, i);
      DigitRunEndShift(x, y, i);
      DecimalValueShift(x, y, i, j);
      if j < |y| {
        assert (x + y)[|x| + j] == y[j];
        ScanGroupsShift(x, y, j + 1, n - 1);
      } else {
        ScanGroupsShift(x, y, j, n - 1);
      }
    }
  }

  /** The scan of a host that starts with an octet `a` followed by a dot
      or the end: it consumes `a` and its dot and carries on with the rest */
  lemma ScanLeadingOctet(a: string, t: string, n: nat)
    requires OctetString(a)
    requires t == [] || t[0] == '.'
    requires n > 0
    ensures ScanGroups(a + t, 0, n) == if t == [] then n == 1 else ScanGroups(t[1..], 0, n - 1)
  {
    var s := a + t;
    forall p | 0 <= p < |a|
      ensures IsDigit(s[p])
    {
      assert s[p] == a[p];
    }
    if t != [] {
      assert s[|a|] == t[0];
    }
    assert DigitRunEnd(s, 0) == |a|;
    DecimalValueExtend(a, t, 0, |a|);
    if t != [] {
      assert s == (a + [t[0]]) + t[1..];
      ScanGroupsShift(a + [t[0]], t[1..], 0, n - 1);
    } else {
      assert s == a;
      assert DigitRunEnd(s, |a|) == |a|;
    }
  }

  /** Four octets joined by dots are accepted, and so is anything that
      follows a dot after the fourth octet: the pattern has no `$` after
      its four groups */
  lemma DottedQuadAccepted(a: string, b: string, c: string, d: string, tail: string)
    requires OctetString(a) && OctetString(b) && OctetString(c) && OctetString(d)
    requires tail == [] || tail[0] == '.'
    ensures IsMayOnlyIPv4(a + "." + b + "." + c + "." + d + tail)
  {
    var t3 := d + tail;
    var t2 := c + ("." + t3);
    var t1 := b + ("." + t2);
    assert a + "." + b + "." + c + "." + d + tail == a + ("." + t1);
    ScanLeadingOctet(a, "." + t1, 4);
    assert ("." + t1)[1..] == t1;
    ScanLeadingOctet(b, "." + t2, 3);
    assert ("." + t2)[1..] == t2;
    ScanLeadingOctet(c, "." + t3, 2);
    assert ("." + t3)[1..] == t3;
    ScanLeadingOctet(d, tail, 1);
  }
}
