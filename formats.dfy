/**
 * Field formats shared by several files, and the way Python's `re.search` treats a pattern
 * written `^...$`: `$` also matches just before one final newline.
 */
module Formats {
  import opened Common
  import opened Text

  /** `+92` followed by exactly ten ASCII digits, and nothing else. */
  predicate IsPkPhone(s: string)
  {
    |s| == 13 && s[..3] == "+92" && AllDigits(s[3..])
  }

  /** `re.search(r'^X$', s)` for a pattern X whose exact matches are `exact`. */
  predicate AnchoredSearch(exact: string -> bool, s: string)
  {
    exact(s) || (|s| > 0 && s[|s| - 1] == '\n' && exact(s[..|s| - 1]))
  }

  /** `re.search(r'X$', s)`: some suffix matches, again allowing one final newline. */
  predicate EndAnchoredSearch(exact: string -> bool, s: string)
  {
    SomeSuffix(exact, s) || (|s| > 0 && s[|s| - 1] == '\n' && SomeSuffix(exact, s[..|s| - 1]))
  }

  predicate SomeSuffix(exact: string -> bool, s: string)
  {
    exists i | 0 <= i <= |s| :: exact(s[i..])
  }

  // ---------------------------------------------------------------- Python's int()

  /** Digits where an underscore may stand between two digits, as Python's `int()` allows (`1_000`). */
  predicate IsGroupedDigits(s: string)
    decreases |s|
  {
    s != [] && IsDigit(s[0])
    && (|s| == 1 || IsGroupedDigits(s[1..]) || (s[1] == '_' && IsGroupedDigits(s[2..])))
  }

  /** The text with its underscores removed. */
  function WithoutUnderscores(s: string): (r: string)
    decreases |s|
  {
    if s == [] then []
    else if s[0] == '_' then WithoutUnderscores(s[1..])
    else [s[0]] + WithoutUnderscores(s[1..])
  }

  /** Removing the underscores of grouped digits leaves only digits. */
  lemma {:induction false} GroupedDigitsOnly(s: string)
    requires IsGroupedDigits(s)
    ensures AllDigits(WithoutUnderscores(s))
    decreases |s|
  {
    if |s| > 1 {
      if IsGroupedDigits(s[1..]) {
        GroupedDigitsOnly(s[1..]);
      } else {
        GroupedDigitsOnly(s[2..]);
        assert WithoutUnderscores(s[1..]) == WithoutUnderscores(s[2..]);
      }
    }
  }

  /** The value of grouped digits; `None` for any other text. */
  function GroupedValue(body: string): (r: Option<nat>)
    ensures r.Some? <==> IsGroupedDigits(body)
  {
    if IsGroupedDigits(body) then
      GroupedDigitsOnly(body);
      Some(DigitsValue(WithoutUnderscores(body)))
    else None
  }

  /**
   * `int(s)` on a text: surrounding whitespace is ignored, an optional `+` or `-` sign comes
   * next, then grouped digits; anything else raises `ValueError`, here `None`.
   */
  function PyInt(s: string): (r: Option<int>)
  {
    SignedValue(Trim(s))
  }

  /** An optional sign followed by grouped digits. */
  function SignedValue(t: string): (r: Option<int>)
  {
    var negative := t != [] && t[0] == '-';
    var body := if t != [] && (t[0] == '+' || t[0] == '-') then t[1..] else t;
    match GroupedValue(body)
    case None => None
    case Some(n) => Some(if negative then 0 - n else n)
  }

  /** Plain digits are grouped digits with their usual value. */
  lemma PlainDigitsValue(s: string)
    requires s != [] && AllDigits(s)
    ensures GroupedValue(s) == Some(DigitsValue(s))
  {
    PlainDigitsGrouped(s);
  }

  lemma {:induction false} PlainDigitsGrouped(s: string)
    requires s != [] && AllDigits(s)
    ensures IsGroupedDigits(s) && WithoutUnderscores(s) == s
    decreases |s|
  {
    if |s| > 1 {
      PlainDigitsGrouped(s[1..]);
    }
  }

  /** A non-empty string of digits reads as its decimal value. */
  lemma PyIntDigits(s: string)
    requires s != [] && AllDigits(s)
    ensures PyInt(s) == Some(DigitsValue(s))
  {
    TrimUnchanged(s);
    assert !(s[0] == '+' || s[0] == '-');
    PlainDigitsValue(s);
  }

  /** `int(str(n)) == n` and `int(str(-n)) == -n`: reading back a spelled number gives it again. */
  lemma PyIntRoundTrip(n: nat)
    ensures PyInt(NatToString(n)) == Some(n as int) && PyInt("-" + NatToString(n)) == Some(-(n as int))
  {
    SpelledRoundTrip(NatToString(n), n);
  }

  lemma SpelledRoundTrip(s: string, n: nat)
    requires s != [] && AllDigits(s) && DigitsValue(s) == n
    ensures PyInt(s) == Some(n as int)
    ensures PyInt("-" + s) == Some(-(n as int))
  {
    PyIntDigits(s);
    PyIntNegative(s, n);
  }

  /** A minus sign before plain digits negates their value. */
  lemma PyIntNegative(s: string, n: nat)
    requires s != [] && AllDigits(s) && DigitsValue(s) == n
    ensures PyInt("-" + s) == Some(-(n as int))
  {
    var m := "-" + s;
    assert m[0] == '-' && m[|m| - 1] == s[|s| - 1];
    TrimUnchanged(m);
    assert m[1..] == s;
    PlainDigitsValue(s);
    assert SignedValue(m) == Some(0 - n);
  }

  /** Text that is not a number in any of these forms is refused. */
  lemma PyIntRefuses(s: string)
    requires var t := Trim(s); t == [] || (!IsDigit(t[0]) && t[0] != '+' && t[0] != '-')
    ensures PyInt(s).None?
  {
  }

  /** Surrounding whitespace does not change the value. */
  lemma PyIntIgnoresSpace(s: string)
    ensures PyInt(s) == PyInt(Trim(s))
  {
    TrimIdempotent(s);
  }

  /** A plus sign is accepted. */
  lemma PyIntPlusSign()
    ensures PyInt("+5") == Some(5)
  {
    TrimUnchanged("+5");
    assert "+5"[1..] == "5";
    PlainDigitsValue("5");
  }

  /** A trailing letter is refused. */
  lemma PyIntTrailingLetter()
    ensures PyInt("5a").None?
  {
  }

  // ---------------------------------------------------------------- integer fields

  /** The longest text DRF's `IntegerField` reads (`MAX_STRING_LENGTH`). */
  const MaxIntegerText := 1000

  /** Text that `0*\s*$` matches to its end: zeros, then white space. */
  predicate ZerosThenSpace(t: string)
  {
    t == [] || (t[0] == '0' && ZerosThenSpace(t[1..])) || (forall i :: 0 <= i < |t| ==> IsSpace(t[i]))
  }

  /**
   * `re.sub(r'\.0*\s*$', '', s)`, scanning from position `k`: the text before the first `.`
   * from there whose rest is zeros then white space, or the text unchanged.
   */
  function DropDecimalFrom(s: string, k: nat): (r: string)
    requires k <= |s|
    ensures r == s || (k <= |r| < |s| && r == s[..|r|] && s[|r|] == '.' && ZerosThenSpace(s[|r| + 1..]))
    decreases |s| - k
  {
    if k == |s| then s
    else if s[k] == '.' && ZerosThenSpace(s[k + 1..]) then s[..k]
    else DropDecimalFrom(s, k + 1)
  }

  /** Positions `k` up to `j` hold no `.`, so the scan passes them. */
  lemma {:induction false} DropDecimalSkips(s: string, k: nat, j: nat)
    requires k <= j <= |s| && forall i :: k <= i < j ==> s[i] != '.'
    ensures DropDecimalFrom(s, k) == DropDecimalFrom(s, j)
    decreases j - k
  {
    if k < j {
      DropDecimalSkips(s, k + 1, j);
    }
  }

  /**
   * `IntegerField.to_internal_value` on a text: more than 1000 characters is refused, otherwise
   * `int()` of the text with a trailing `.0…` and white space removed; `None` is the refusal
   * ("A valid integer is required.").
   */
  function IntegerFieldValue(s: string): (r: Option<int>)
  {
    if |s| > MaxIntegerText then None else PyInt(DropDecimalFrom(s, 0))
  }

  /** `.0` after text without a `.` is removed. */
  lemma DropDotZero(d: string)
    requires forall i :: 0 <= i < |d| ==> d[i] != '.'
    ensures DropDecimalFrom(d, 0) == d
    ensures DropDecimalFrom(d + ".0", 0) == d
  {
    DropDecimalSkips(d, 0, |d|);
    var t := d + ".0";
    DropDecimalSkips(t, 0, |d|);
    assert t[|d|] == '.' && t[|d| + 1..] == "0";
    assert ZerosThenSpace(t[|d| + 1..]) by {
      assert "0"[1..] == [];
    }
    assert t[..|d|] == d;
  }

  /** A spelled number reads back as itself, with or without a `.0` after it. */
  lemma IntegerFieldRoundTrip(n: nat)
    requires |NatToString(n)| + 2 <= MaxIntegerText
    ensures IntegerFieldValue(NatToString(n)) == Some(n as int)
    ensures IntegerFieldValue(NatToString(n) + ".0") == Some(n as int)
  {
    var d := NatToString(n);
    assert forall i :: 0 <= i < |d| ==> IsDigit(d[i]);
    DropDotZero(d);
    PyIntRoundTrip(n);
  }

  /** A word is refused. */
  lemma IntegerFieldRefusesWord()
    ensures IntegerFieldValue("abc").None?
  {
    DropDecimalSkips("abc", 0, 3);
    TrimUnchanged("abc");
    PyIntRefuses("abc");
  }

  // ---------------------------------------------------------------- e-mail addresses

  /**
   * A character that `[A-Z]` matches under `re.IGNORECASE`: the ASCII letters, and the four
   * letters whose simple case mapping is an ASCII letter (dotted capital I, dotless small i,
   * long s and the Kelvin sign).
   */
  predicate IsCaselessLetter(c: char)
  {
    IsUpperLetter(c) || IsLowerLetter(c) || c == '\U{130}' || c == '\U{131}' || c == '\U{17F}' || c == '\U{212A}'
  }

  /** `[A-Z0-9]` under `re.IGNORECASE`. */
  predicate IsAlnum(c: char)
  {
    IsCaselessLetter(c) || IsDigit(c)
  }

  /** A character of a dot-atom: a letter, a digit or one of the specials Django's validator lists. */
  predicate IsAtomChar(c: char)
  {
    IsAlnum(c) || c in "-!#$%&'*+/=?^_`{}|~"
  }

  /** One or more runs of atom characters joined by single dots. */
  predicate IsDotAtom(s: string)
  {
    s != [] && IsAtomChar(s[0])
    && (|s| == 1 || IsDotAtom(s[1..]) || (s[1] == '.' && IsDotAtom(s[2..])))
  }

  /** A character allowed bare inside a quoted local part: a control character or `!`, `#`..`[`, `]`..DEL. */
  predicate IsQuotedChar(c: char)
  {
    ('\U{1}' <= c <= '\U{8}') || c == '\U{B}' || c == '\U{C}' || ('\U{E}' <= c <= '\U{1F}')
    || c == '!' || ('#' <= c <= '[') || (']' <= c <= '\U{7F}') || IsCaselessLetter(c)
  }

  /** A character allowed after a backslash inside a quoted local part. */
  predicate IsEscapedChar(c: char)
  {
    ('\U{1}' <= c <= '\U{9}') || c == '\U{B}' || c == '\U{C}' || ('\U{E}' <= c <= '\U{7F}') || IsCaselessLetter(c)
  }

  /** The inside of a quoted local part: bare characters and backslash pairs. */
  predicate IsQuotedBody(s: string)
  {
    s == []
    || (IsQuotedChar(s[0]) && IsQuotedBody(s[1..]))
    || (|s| >= 2 && s[0] == '\\' && IsEscapedChar(s[1]) && IsQuotedBody(s[2..]))
  }

  /** The local part of an address: a dot-atom, or a quoted string. */
  predicate IsLocalPart(s: string)
  {
    IsDotAtom(s) || (|s| >= 2 && s[0] == '"' && s[|s| - 1] == '"' && IsQuotedBody(s[1..|s| - 1]))
  }

  /** A domain label: 1 to 63 letters, digits and hyphens, with no hyphen at either end. */
  predicate IsLabel(l: string)
  {
    1 <= |l| <= 63 && IsAlnum(l[0]) && IsAlnum(l[|l| - 1])
    && forall i :: 0 <= i < |l| ==> IsAlnum(l[i]) || l[i] == '-'
  }

  /** A top-level domain: 2 to 63 letters, digits and hyphens, not ending in a hyphen. */
  predicate IsTld(t: string)
  {
    2 <= |t| <= 63 && t[|t| - 1] != '-'
    && forall i :: 0 <= i < |t| ==> IsAlnum(t[i]) || t[i] == '-'
  }

  /** One or more labels, each followed by a dot, then a top-level domain. */
  predicate IsDomainName(d: string)
    decreases |d|
  {
    match IndexOf(d, '.')
    case None => false
    case Some(k) => IsLabel(d[..k]) && (IsTld(d[k + 1..]) || IsDomainName(d[k + 1..]))
  }

  /**
   * Django's `EmailValidator`: at most 320 characters, split at the last `@` into a local part
   * and a domain that is `localhost` or a domain name.
   */
  predicate IsEmail(s: string)
  {
    |s| <= 320 && LastIndexOf(s, '@').Some?
    && IsLocalPart(s[..LastIndexOf(s, '@').value])
    && (s[LastIndexOf(s, '@').value + 1..] == "localhost" || IsDomainName(s[LastIndexOf(s, '@').value + 1..]))
  }

  /** A domain name has no `@` in it. */
  lemma {:induction false} DomainNameHasNoAt(d: string)
    requires IsDomainName(d)
    ensures '@' !in d
    decreases |d|
  {
    var k := IndexOf(d, '.').value;
    var rest := d[k + 1..];
    if !IsTld(rest) {
      DomainNameHasNoAt(rest);
    }
    forall i | 0 <= i < |d|
      ensures d[i] != '@'
    {
      if i > k {
        assert d[i] == rest[i - k - 1];
      } else if i < k {
        assert d[i] == d[..k][i];
      }
    }
  }

  /** The last `@` of `a + "@" + b` is the one between them when `b` has none. */
  lemma {:induction false} LastAtBetween(a: string, b: string)
    requires '@' !in b
    ensures LastIndexOf(a + "@" + b, '@') == Some(|a|)
    decreases |b|
  {
    var s := a + "@" + b;
    if b != [] {
      var b' := b[..|b| - 1];
      assert s[|s| - 1] == b[|b| - 1];
      assert s[..|s| - 1] == a + "@" + b';
      LastAtBetween(a, b');
    }
  }

  /**
   * An address put together from a valid local part and domain name splits back into exactly
   * those parts, and is valid when it fits the length limit.
   */
  lemma EmailFromParts(local: string, domain: string)
    requires IsLocalPart(local) && IsDomainName(domain)
    ensures var s := local + "@" + domain;
            && LastIndexOf(s, '@') == Some(|local|)
            && s[..|local|] == local && s[|local| + 1..] == domain
            && (IsEmail(s) <==> |local| + |domain| < 320)
  {
    SplitAroundAt(local, domain);
    DomainNameHasNoAt(domain);
    LastAtBetween(local, domain);
  }

  lemma SplitAroundAt(a: string, b: string)
    ensures (a + "@" + b)[..|a|] == a && (a + "@" + b)[|a| + 1..] == b
  {
    var s := a + "@" + b;
    assert s[..|a|] == a;
    assert s[|a| + 1..] == b;
  }

  /** Text without an `@` is never an address. */
  lemma EmailNeedsAt(s: string)
    requires '@' !in s
    ensures !IsEmail(s)
  {
  }

  /** A short, ordinary address passes. */
  lemma EmailExample()
    ensures IsEmail("a@b.pk")
  {
    assert IsDotAtom("a");
    assert IsLabel("b") && IsTld("pk");
    assert IndexOf("b.pk", '.') == Some(1);
    assert "b.pk"[..1] == "b" && "b.pk"[2..] == "pk";
    EmailFromParts("a", "b.pk");
  }

  /** A domain without a dot is refused, unless it is `localhost`. */
  lemma EmailDomainNeedsDot(local: string, domain: string)
    requires '.' !in domain && '@' !in domain && domain != "localhost"
    ensures !IsEmail(local + "@" + domain)
  {
    SplitAroundAt(local, domain);
    LastAtBetween(local, domain);
  }

  // ---------------------------------------------------------------- the browser's e-mail input

  /** An ASCII letter or digit. */
  predicate IsAsciiAlnum(c: char)
  {
    IsUpperLetter(c) || IsLowerLetter(c) || IsDigit(c)
  }

  /** A character the HTML standard allows before the `@` of a valid e-mail address. */
  predicate IsHtmlLocalChar(c: char)
  {
    IsAsciiAlnum(c) || c in ".!#$%&'*+/=?^_`{|}~-"
  }

  /** A label of the HTML e-mail grammar: 1 to 63 ASCII letters, digits and hyphens, no hyphen at either end. */
  predicate IsHtmlLabel(l: string)
  {
    1 <= |l| <= 63 && IsAsciiAlnum(l[0]) && IsAsciiAlnum(l[|l| - 1])
    && forall i :: 0 <= i < |l| ==> IsAsciiAlnum(l[i]) || l[i] == '-'
  }

  /**
   * A valid e-mail address as an `<input type="email">` checks it: a non-empty run of allowed
   * characters, one `@`, and one or more labels joined by dots (a dot is not required).
   */
  predicate IsHtmlEmail(s: string)
  {
    match IndexOf(s, '@')
    case None => false
    case Some(k) =>
      k > 0 && (forall i :: 0 <= i < k ==> IsHtmlLocalChar(s[i]))
      && var parts := Split(s[k + 1..], '.');
         forall j :: 0 <= j < |parts| ==> IsHtmlLabel(parts[j])
  }

  /** An accepted address is never empty. */
  lemma HtmlEmailNonEmpty(s: string)
    requires IsHtmlEmail(s)
    ensures |s| > 1
  {
    var k := IndexOf(s, '@').value;
    assert k > 0 && k < |s|;
  }

  /** Text without an `@` is never accepted by the e-mail input. */
  lemma HtmlEmailNeedsAt(s: string)
    requires '@' !in s
    ensures !IsHtmlEmail(s)
  {
  }

  /**
   * The browser accepts an address with a bare host name that the server's validator
   * refuses: the two checks differ, and the form's check is not the server's.
   */
  lemma HtmlEmailLooserThanServer()
    ensures IsHtmlEmail("a@b") && !IsEmail("a@b")
  {
    assert IndexOf("a@b", '@') == Some(1);
    assert "a@b"[2..] == "b";
    SplitNone("b", '.');
    assert IsHtmlLabel("b");
    EmailDomainNeedsDot("a", "b");
    assert "a" + "@" + "b" == "a@b";
  }
}
