/** The pure helpers of package helper: address-family classification by
    colon count, the domain-name pattern, and the minimum/maximum scan over
    the RTT samples. */
module Helper {

  // ---------------------------------------------------------------------
  // IsIPv4 / IsIPv6
  // ---------------------------------------------------------------------

  /** The number of occurrences of `c` in `s` (strings.Count with a
      one-character separator). */
  function Count(s: string, c: char): (n: nat)
    ensures n <= |s|
  {
    if s == [] then 0 else (if s[0] == c then 1 else 0) + Count(s[1..], c)
  }

  /** The count is the multiplicity of `c` in the multiset of the characters of `s`. */
  lemma {:induction false} CountIsMultiplicity(s: string, c: char)
    ensures Count(s, c) == multiset(s)[c]
  {
    if s != [] {
      CountIsMultiplicity(s[1..], c);
      assert s == [s[0]] + s[1..];
    }
  }

  /** Reference reading of "two or more": two distinct positions hold `c`. */
  ghost predicate TwoOccurrences(s: string, c: char)
  {
    exists i, j :: 0 <= i < j < |s| && s[i] == c && s[j] == c
  }

  /** True when the address holds fewer than two colons. */
  predicate IsIPv4(address: string)
  {
    Count(address, ':') < 2
  }

  /** True when the address holds two or more colons. */
  predicate IsIPv6(address: string)
  {
    Count(address, ':') >= 2
  }

  /** Every string is classified as exactly one of the two families. */
  lemma ExactlyOneFamily(address: string)
    ensures IsIPv4(address) != IsIPv6(address)
  {
  }

  lemma {:induction false} CountAtLeastOne(s: string, c: char)
    ensures Count(s, c) >= 1 <==> c in s
  {
    if s != [] {
      CountAtLeastOne(s[1..], c);
      assert s == [s[0]] + s[1..];
    }
  }

  lemma {:induction false} CountAtLeastTwo(s: string, c: char)
    ensures Count(s, c) >= 2 <==> TwoOccurrences(s, c)
  {
    if s != [] {
      var t := s[1..];
      CountAtLeastTwo(t, c);
      CountAtLeastOne(t, c);
      if s[0] == c {
        if c in t {
          var k :| 0 <= k < |t| && t[k] == c;
          assert s[0] == c && s[k + 1] == c;
        }
        if TwoOccurrences(s, c) {
          var i, j :| 0 <= i < j < |s| && s[i] == c && s[j] == c;
          assert t[j - 1] == c;
        }
      } else {
        if TwoOccurrences(t, c) {
          var i, j :| 0 <= i < j < |t| && t[i] == c && t[j] == c;
          assert s[i + 1] == c && s[j + 1] == c;
        }
        if TwoOccurrences(s, c) {
          var i, j :| 0 <= i < j < |s| && s[i] == c && s[j] == c;
          assert t[i - 1] == c && t[j - 1] == c;
        }
      }
    }
  }

  /** IsIPv6 holds exactly when the string has two or more ':' characters,
      and IsIPv4 exactly when it has at most one. */
  lemma IsIPv6Iff(address: string)
    ensures IsIPv6(address) <==> TwoOccurrences(address, ':')
    ensures IsIPv4(address) <==> !TwoOccurrences(address, ':')
  {
    CountAtLeastTwo(address, ':');
  }

  // ---------------------------------------------------------------------
  // IsDomainName: the pattern
  //   ^(?:[a-z0-9](?:[a-z0-9-]{0,61}[a-z0-9])?\.)+(?:[a-z]{1,63}| xn--[a-z0-9]{1,59})$
  // read as one or more labels, each followed by a dot, then a final label.
  // ---------------------------------------------------------------------

  /** The prefix of the internationalised final label as the pattern has it
      (with a leading space). */
  const IdnPrefixAsWritten: string := " xn--"

  /** The prefix of an internationalised (punycode) final label. */
  const IdnPrefix: string := "xn--"

  predicate IsLowerAlnum(ch: char)
  {
    'a' <= ch <= 'z' || '0' <= ch <= '9'
  }

  /** A label before a dot: `[a-z0-9](?:[a-z0-9-]{0,61}[a-z0-9])?`, that is
      1 to 63 characters of [a-z0-9-] that neither start nor end with '-'. */
  predicate IsLabel(l: string)
  {
    1 <= |l| <= 63 && IsLowerAlnum(l[0]) && IsLowerAlnum(l[|l| - 1]) &&
    forall i :: 0 <= i < |l| ==> IsLowerAlnum(l[i]) || l[i] == '-'
  }

  /** The final label: `[a-z]{1,63}`, or `idnPrefix` followed by `[a-z0-9]{1,59}`. */
  predicate IsFinalLabel(t: string, idnPrefix: string)
  {
    (1 <= |t| <= 63 && forall i :: 0 <= i < |t| ==> 'a' <= t[i] <= 'z') ||
    (|idnPrefix| + 1 <= |t| <= |idnPrefix| + 59 && t[..|idnPrefix|] == idnPrefix &&
     forall i :: |idnPrefix| <= i < |t| ==> IsLowerAlnum(t[i]))
  }

  /** The position of the first `c` in `s`, or |s| when there is none. */
  function FirstIndex(s: string, c: char): (k: nat)
    ensures k <= |s|
    ensures k < |s| ==> s[k] == c
    ensures forall i :: 0 <= i < k ==> s[i] != c
  {
    if s == [] then 0 else if s[0] == c then 0 else 1 + FirstIndex(s[1..], c)
  }

  /** The whole-string match of the domain pattern, with the internationalised
      final label introduced by `idnPrefix`: split off the text up to the
      first dot as a label, and the rest is either the final label or again a
      domain. */
  predicate MatchesDomain(s: string, idnPrefix: string)
    decreases |s|
  {
    var k := FirstIndex(s, '.');
    k < |s| && IsLabel(s[..k]) &&
    (IsFinalLabel(s[k + 1..], idnPrefix) || MatchesDomain(s[k + 1..], idnPrefix))
  }

  /** IsDomainName, with the pattern as the source writes it. */
  predicate IsDomainName(str: string)
  {
    MatchesDomain(str, IdnPrefixAsWritten)
  }

  /** The pattern as evidently intended: `xn--` without the leading space. */
  predicate IsDomainNameIntended(str: string)
  {
    MatchesDomain(str, IdnPrefix)
  }

  /** The labels, each followed by a dot. */
  function Dotted(labels: seq<string>): string
  {
    if labels == [] then "" else labels[0] + "." + Dotted(labels[1..])
  }

  /** Every element of `labels` is a label. */
  predicate AllLabels(labels: seq<string>)
  {
    forall i :: 0 <= i < |labels| ==> IsLabel(labels[i])
  }

  /** The domain pattern read structurally: one or more labels, each followed
      by a dot, then a final label. */
  ghost predicate DomainPattern(s: string, idnPrefix: string)
  {
    exists labels: seq<string>, t: string ::
      |labels| >= 1 && AllLabels(labels) && IsFinalLabel(t, idnPrefix) && s == Dotted(labels) + t
  }

  lemma FirstIndexOfSeparator(l: string, c: char, rest: string)
    requires c !in l
    ensures FirstIndex(l + [c] + rest, c) == |l|
  {
    var s := l + [c] + rest;
    assert s[|l|] == c;
    assert forall i :: 0 <= i < |l| ==> s[i] == l[i];
  }

  lemma FirstIndexAbsent(s: string, c: char)
    requires c !in s
    ensures FirstIndex(s, c) == |s|
  {
  }

  lemma DottedCons(l: string, labels: seq<string>)
    ensures Dotted([l] + labels) == l + "." + Dotted(labels)
  {
    assert ([l] + labels)[1..] == labels;
  }

  lemma AllLabelsCons(l: string, labels: seq<string>)
    requires IsLabel(l) && AllLabels(labels)
    ensures AllLabels([l] + labels)
  {
    forall i | 0 <= i < |labels| + 1 ensures IsLabel(([l] + labels)[i]) {
      if i > 0 {
        assert ([l] + labels)[i] == labels[i - 1];
      }
    }
  }

  lemma {:induction false} MatchesDomainHasPattern(s: string, idnPrefix: string)
    returns (labels: seq<string>, t: string)
    requires MatchesDomain(s, idnPrefix)
    ensures |labels| >= 1 && AllLabels(labels) && IsFinalLabel(t, idnPrefix)
    ensures s == Dotted(labels) + t
    decreases |s|
  {
    var k := FirstIndex(s, '.');
    var l, rest := s[..k], s[k + 1..];
    assert s == l + "." + rest;
    var more: seq<string>;
    if IsFinalLabel(rest, idnPrefix) {
      more, t := [], rest;
      assert rest == Dotted(more) + t;
    } else {
      more, t := MatchesDomainHasPattern(rest, idnPrefix);
    }
    labels := [l] + more;
    ConsPattern(l, more, t, rest, s);
  }

  lemma ConsPattern(l: string, more: seq<string>, t: string, rest: string, s: string)
    requires IsLabel(l) && AllLabels(more)
    requires s == l + "." + rest && rest == Dotted(more) + t
    ensures AllLabels([l] + more) && s == Dotted([l] + more) + t
  {
    DottedCons(l, more);
    AllLabelsCons(l, more);
  }

  lemma {:induction false} PatternMatchesDomain(labels: seq<string>, t: string, idnPrefix: string)
    requires |labels| >= 1 && AllLabels(labels)
    requires IsFinalLabel(t, idnPrefix)
    ensures MatchesDomain(Dotted(labels) + t, idnPrefix)
    decreases |labels|
  {
    var s := Dotted(labels) + t;
    var l := labels[0];
    var rest := Dotted(labels[1..]) + t;
    assert s == l + "." + rest;
    assert IsLabel(l);
    assert forall i :: 0 <= i < |l| ==> l[i] != '.';
    FirstIndexOfSeparator(l, '.', rest);
    assert s[..|l|] == l && s[|l| + 1..] == rest;
    if |labels| > 1 {
      assert AllLabels(labels[1..]) by {
        forall i | 0 <= i < |labels| - 1 ensures IsLabel(labels[1..][i]) {
          assert labels[1..][i] == labels[i + 1];
        }
      }
      PatternMatchesDomain(labels[1..], t, idnPrefix);
    } else {
      assert rest == t;
    }
  }

  /** The recursive predicate is exactly the structural reading of the
      pattern: labels, each followed by a dot, then a final label. */
  lemma MatchesDomainIffPattern(s: string, idnPrefix: string)
    ensures MatchesDomain(s, idnPrefix) <==> DomainPattern(s, idnPrefix)
  {
    if MatchesDomain(s, idnPrefix) {
      var labels, t := MatchesDomainHasPattern(s, idnPrefix);
    }
    if DomainPattern(s, idnPrefix) {
      var labels: seq<string>, t: string :|
        |labels| >= 1 && AllLabels(labels) && IsFinalLabel(t, idnPrefix) && s == Dotted(labels) + t;
      PatternMatchesDomain(labels, t, idnPrefix);
    }
  }

  /** An accepted string contains a dot, and the text before its first dot
      is a label. */
  lemma AcceptedHasLabelAndDot(s: string, idnPrefix: string)
    requires MatchesDomain(s, idnPrefix)
    ensures '.' in s
    ensures IsLabel(s[..FirstIndex(s, '.')])
  {
  }

  /** A character that may appear in a string matching the pattern. */
  predicate IsDomainChar(ch: char, idnPrefix: string)
  {
    IsLowerAlnum(ch) || ch == '-' || ch == '.' || ch in idnPrefix
  }

  lemma FinalLabelChars(t: string, idnPrefix: string)
    requires IsFinalLabel(t, idnPrefix)
    ensures forall i :: 0 <= i < |t| ==> IsDomainChar(t[i], idnPrefix)
  {
    if !(1 <= |t| <= 63 && forall j :: 0 <= j < |t| ==> 'a' <= t[j] <= 'z') {
      assert forall i :: 0 <= i < |idnPrefix| ==> t[i] == idnPrefix[i];
    }
  }

  /** Every character of an accepted string is a lower-case letter, a digit,
      '-', '.' or a character of the prefix. */
  lemma {:induction false} DomainChars(s: string, idnPrefix: string)
    ensures MatchesDomain(s, idnPrefix) ==> forall i :: 0 <= i < |s| ==> IsDomainChar(s[i], idnPrefix)
    decreases |s|
  {
    var k := FirstIndex(s, '.');
    if k < |s| && IsLabel(s[..k]) {
      var l, rest := s[..k], s[k + 1..];
      assert forall i :: 0 <= i < |l| ==> IsDomainChar(l[i], idnPrefix);
      if IsFinalLabel(rest, idnPrefix) {
        FinalLabelChars(rest, idnPrefix);
      } else {
        DomainChars(rest, idnPrefix);
      }
      if MatchesDomain(s, idnPrefix) {
        assert forall i :: 0 <= i < |rest| ==> IsDomainChar(rest[i], idnPrefix);
        forall i | 0 <= i < |s| ensures IsDomainChar(s[i], idnPrefix) {
          if i < k {
            assert s[i] == l[i];
          } else if i > k {
            assert s[i] == rest[i - k - 1];
          }
        }
      }
    }
  }

  /** IsDomainName rejects every string holding an upper-case letter or a ':'. */
  lemma RejectsUpperCaseAndColon(s: string, i: nat)
    requires i < |s| && ('A' <= s[i] <= 'Z' || s[i] == ':')
    ensures !IsDomainName(s)
    ensures !IsDomainNameIntended(s)
  {
    DomainChars(s, IdnPrefixAsWritten);
    DomainChars(s, IdnPrefix);
    assert !IsDomainChar(s[i], IdnPrefixAsWritten);
    assert !IsDomainChar(s[i], IdnPrefix);
  }

  /** A string of digits and dots never matches: a final label starts with a
      letter or with the first character of the prefix. */
  lemma {:induction false} RejectsDigitsAndDots(s: string, idnPrefix: string)
    requires |idnPrefix| > 0 && !('0' <= idnPrefix[0] <= '9') && idnPrefix[0] != '.'
    requires forall i :: 0 <= i < |s| ==> '0' <= s[i] <= '9' || s[i] == '.'
    ensures !MatchesDomain(s, idnPrefix)
    decreases |s|
  {
    var k := FirstIndex(s, '.');
    if k < |s| {
      var rest := s[k + 1..];
      assert forall i :: 0 <= i < |rest| ==> '0' <= rest[i] <= '9' || rest[i] == '.' by {
        forall i | 0 <= i < |rest| ensures '0' <= rest[i] <= '9' || rest[i] == '.' {
          assert rest[i] == s[k + 1 + i];
        }
      }
      if |idnPrefix| <= |rest| {
        assert rest[..|idnPrefix|][0] == rest[0];
        assert rest[..|idnPrefix|] != idnPrefix;
      }
      NoLetterFirst(rest);
      assert !IsFinalLabel(rest, idnPrefix);
      RejectsDigitsAndDots(rest, idnPrefix);
    }
  }

  lemma NoLetterFirst(t: string)
    requires forall i :: 0 <= i < |t| ==> !('a' <= t[i] <= 'z')
    ensures !(1 <= |t| && forall i :: 0 <= i < |t| ==> 'a' <= t[i] <= 'z')
  {
    if 1 <= |t| {
      assert !('a' <= t[0] <= 'z');
    }
  }

  /** A dotted IPv4 literal is not taken for a domain name. */
  lemma Ipv4LiteralIsNotDomainName()
    ensures !IsDomainName("93.184.216.34")
    ensures !IsDomainNameIntended("93.184.216.34")
  {
    RejectsDigitsAndDots("93.184.216.34", IdnPrefixAsWritten);
    RejectsDigitsAndDots("93.184.216.34", IdnPrefix);
  }

  /** `name` + "." + `tld` matches when `name` is a label and `tld` a final label. */
  lemma OneLabelDomain(name: string, tld: string, idnPrefix: string)
    requires IsLabel(name)
    ensures MatchesDomain(name + "." + tld, idnPrefix) <==>
            IsFinalLabel(tld, idnPrefix) || MatchesDomain(tld, idnPrefix)
  {
    var s := name + "." + tld;
    assert forall i :: 0 <= i < |name| ==> name[i] != '.';
    FirstIndexOfSeparator(name, '.', tld);
    assert s[..|name|] == name && s[|name| + 1..] == tld;
  }

  /** A punycode code: `[a-z0-9]{1,59}`. */
  predicate IsPunycode(code: string)
  {
    1 <= |code| <= 59 && forall i :: 0 <= i < |code| ==> IsLowerAlnum(code[i])
  }

  lemma PrefixedFinalLabel(prefix: string, code: string)
    requires IsPunycode(code)
    ensures IsFinalLabel(prefix + code, prefix)
  {
    var t := prefix + code;
    assert t[..|prefix|] == prefix;
    assert forall i :: |prefix| <= i < |t| ==> t[i] == code[i - |prefix|];
  }

  /** As written, a domain whose final label is the punycode form `xn--<code>`
      is rejected, and only the variant with a space before `xn--` is
      accepted. */
  lemma PunycodeTldAsWritten(name: string, code: string)
    requires IsLabel(name) && IsPunycode(code)
    ensures !IsDomainName(name + "." + (IdnPrefix + code))
    ensures IsDomainName(name + "." + (IdnPrefixAsWritten + code))
  {
    var tld, spaced := IdnPrefix + code, IdnPrefixAsWritten + code;
    OneLabelDomain(name, tld, IdnPrefixAsWritten);
    OneLabelDomain(name, spaced, IdnPrefixAsWritten);
    assert tld[2] == '-';
    assert tld[..5][0] == 'x';
    assert forall i :: 0 <= i < |code| ==> tld[i + 4] == code[i];
    assert '.' !in tld;
    FirstIndexAbsent(tld, '.');
    PrefixedFinalLabel(IdnPrefixAsWritten, code);
  }

  /** The intended pattern accepts the punycode final label. */
  lemma PunycodeTldIntended(name: string, code: string)
    requires IsLabel(name) && IsPunycode(code)
    ensures IsDomainNameIntended(name + "." + (IdnPrefix + code))
  {
    OneLabelDomain(name, IdnPrefix + code, IdnPrefix);
    PrefixedFinalLabel(IdnPrefix, code);
  }

  /** Nothing the intended pattern accepts contains a space. */
  lemma IntendedHasNoSpace(s: string)
    ensures IsDomainNameIntended(s) ==> ' ' !in s
  {
    DomainChars(s, IdnPrefix);
    assert !IsDomainChar(' ', IdnPrefix);
  }

  /** The Russian top-level domain in punycode, `xn--p1ai`, is rejected as
      written ... */
  lemma PunycodeExampleAsWritten()
    ensures !IsDomainName("example.xn--p1ai")
  {
    assert "example" + "." + (IdnPrefix + "p1ai") == "example.xn--p1ai";
    PunycodeTldAsWritten("example", "p1ai");
  }

  /** ... and accepted as intended. */
  lemma PunycodeExampleIntended()
    ensures IsDomainNameIntended("example.xn--p1ai")
  {
    assert "example" + "." + (IdnPrefix + "p1ai") == "example.xn--p1ai";
    PunycodeTldIntended("example", "p1ai");
  }

  // ---------------------------------------------------------------------
  // MinMax
  // ---------------------------------------------------------------------

  /** The smallest element of a non-empty sequence. */
  function SeqMin(s: seq<int>): (m: int)
    requires |s| > 0
    ensures m in s && forall i :: 0 <= i < |s| ==> m <= s[i]
  {
    if |s| == 1 then s[0] else var r := SeqMin(s[1..]); if s[0] < r then s[0] else r
  }

  /** The largest element of a non-empty sequence. */
  function SeqMax(s: seq<int>): (m: int)
    requires |s| > 0
    ensures m in s && forall i :: 0 <= i < |s| ==> s[i] <= m
  {
    if |s| == 1 then s[0] else var r := SeqMax(s[1..]); if s[0] > r then s[0] else r
  }

  /** One scan over a non-empty slice that keeps the running minimum and maximum. */
  method MinMax(values: seq<int>) returns (min: int, max: int)
    requires |values| > 0
    ensures min in values && max in values
    ensures forall i :: 0 <= i < |values| ==> min <= values[i] <= max
    ensures min <= max
    ensures min == SeqMin(values) && max == SeqMax(values)
  {
    max := values[0];
    min := values[0];
    for k := 0 to |values|
      invariant min in values && max in values
      invariant forall i :: 0 <= i < k ==> min <= values[i] <= max
    {
      var value := values[k];
      if max < value {
        max := value;
      }
      if min > value {
        min := value;
      }
    }
  }
}
