/** The port in a `Host` header, and the decimal numerals it is written in. */
module HostPort {
  import opened Wrappers

  predicate IsDigit(c: char) { '0' <= c <= '9' }

  predicate IsDigits(s: string) { s != "" && forall c | c in s :: IsDigit(c) }

  /** `str.isdigit()`, on Latin-1 text: it also holds of superscripts. */
  predicate LooksNumeric(s: string) {
    s != "" && forall c | c in s :: IsDigit(c) || c in {'\U{B2}', '\U{B3}', '\U{B9}'}
  }

  /** The interpreter's default limit on the length of a numeral. */
  const MAX_DIGITS := 4300

  /** What `int` accepts; on anything else it raises. */
  predicate IsNumeral(s: string) { IsDigits(s) && |s| <= MAX_DIGITS }

  function DigitValue(c: char): nat
    requires IsDigit(c)
  {
    c as int - '0' as int
  }

  /** `int(s)` */
  function ToNat(s: string): nat
    requires forall c | c in s :: IsDigit(c)
  {
    if s == "" then 0 else ToNat(s[..|s| - 1]) * 10 + DigitValue(s[|s| - 1])
  }

  function DigitOf(d: nat): (c: char)
    requires d < 10
    ensures IsDigit(c) && DigitValue(c) == d
  {
    (d + '0' as int) as char
  }

  /** `str(n)` */
  function Decimal(n: nat): string {
    if n < 10 then [DigitOf(n)] else Decimal(n / 10) + [DigitOf(n % 10)]
  }

  lemma ToNatOfMore(s: string, c: char)
    requires (forall d | d in s :: IsDigit(d)) && IsDigit(c)
    ensures (forall d | d in s + [c] :: IsDigit(d)) && ToNat(s + [c]) == ToNat(s) * 10 + DigitValue(c)
  {
    assert (s + [c])[..|s|] == s;
  }

  lemma TenTimes(n: nat)
    ensures n / 10 * 10 + n % 10 == n
    ensures n >= 10 ==> n / 10 >= 1
  {
  }

  /** A numeral reads back as its number. */
  lemma {:induction false} DecimalRoundTrip(n: nat)
    ensures IsDigits(Decimal(n)) && ToNat(Decimal(n)) == n
  {
    if n < 10 {
      ToNatOfMore("", DigitOf(n));
      assert "" + Decimal(n) == Decimal(n);
    } else {
      DecimalRoundTrip(n / 10);
      ToNatOfMore(Decimal(n / 10), DigitOf(n % 10));
      TenTimes(n);
    }
  }

  /** And it has no leading zero. */
  lemma {:induction false} NoLeadingZero(n: nat)
    ensures Decimal(n) != "" && (Decimal(n)[0] == '0' ==> n == 0)
  {
    if n < 10 {
    } else {
      NoLeadingZero(n / 10);
      TenTimes(n);
    }
  }

  /** What follows the first `mark` in `s`. */
  function AfterFirst(s: string, mark: string): Option<string> {
    if mark <= s then Some(s[|mark|..]) else if s == "" then None else AfterFirst(s[1..], mark)
  }

  /** What follows the last `c` in `s`. */
  function AfterLast(s: string, c: char): Option<string> {
    if s == "" then None
    else if s[|s| - 1] == c then Some("")
    else var rest := AfterLast(s[..|s| - 1], c); if rest.Some? then Some(rest.value + [s[|s| - 1]]) else None
  }

  datatype Port = NoPort | Port(number: nat) | Raises

  function Parsed(rest: Option<string>): Port {
    if rest.None? || !LooksNumeric(rest.value) then NoPort
    else if IsNumeral(rest.value) then Port(ToNat(rest.value))
    else Raises
  }

  /** `port_from_host_header`: a bracketed address keeps its own colons. */
  function PortFromHostHeader(host: string): Port {
    if "[" <= host then Parsed(AfterFirst(host, "]:")) else Parsed(AfterLast(host, ':'))
  }

  predicate MarkAt(s: string, mark: string, k: nat) { k + |mark| <= |s| && s[k..k + |mark|] == mark }

  predicate FirstMarkAt(s: string, mark: string, k: nat) {
    MarkAt(s, mark, k) && forall j: nat | j < k :: !MarkAt(s, mark, j)
  }

  lemma {:induction false} AfterFirstMeans(s: string, mark: string)
    ensures var rest := AfterFirst(s, mark);
            if rest.None? then forall k: nat :: !MarkAt(s, mark, k)
            else && |mark| + |rest.value| <= |s| && rest.value == s[|s| - |rest.value|..]
                 && FirstMarkAt(s, mark, |s| - |rest.value| - |mark|)
  {
    if mark <= s {
      assert MarkAt(s, mark, 0);
    } else if s == "" {
    } else {
      AfterFirstMeans(s[1..], mark);
      forall k: nat ensures MarkAt(s, mark, k) <==> k > 0 && MarkAt(s[1..], mark, k - 1) { MarkShifts(s, mark, k); }
    }
  }

  lemma MarkShifts(s: string, mark: string, k: nat)
    requires s != "" && !(mark <= s)
    ensures MarkAt(s, mark, k) <==> k > 0 && MarkAt(s[1..], mark, k - 1)
  {
    if k > 0 && k + |mark| <= |s| { assert s[1..][k - 1..k - 1 + |mark|] == s[k..k + |mark|]; }
  }

  lemma {:induction false} AfterLastMeans(s: string, c: char)
    ensures var rest := AfterLast(s, c);
            if rest.None? then c !in s
            else && |rest.value| < |s| && s[|s| - |rest.value| - 1] == c
                 && rest.value == s[|s| - |rest.value|..] && c !in rest.value
  {
    if s == "" {
    } else {
      AfterLastMeans(s[..|s| - 1], c);
      assert s == s[..|s| - 1] + [s[|s| - 1]];
    }
  }

  lemma Suffix(s: string, from: nat)
    requires from <= |s|
    ensures forall i | from <= i < |s| :: s[i] in s[from..]
  {
    forall i | from <= i < |s| ensures s[i] in s[from..] {
      assert s[from..][i - from] == s[i];
    }
  }

  lemma LastColon(host: string, k: nat)
    requires k < |host| && host[k] == ':' && LooksNumeric(host[k + 1..])
    ensures AfterLast(host, ':') == Some(host[k + 1..])
  {
    AfterLastMeans(host, ':');
    assert host[k] in host;
    var rest := AfterLast(host, ':').value;
    var at := |host| - |rest| - 1;
    Suffix(host, k + 1);
    Suffix(host, at + 1);
  }

  /** What a host that is not bracketed names is what follows a colon: the port, or the text on which
      reading it raises.  Since neither holds a colon, it is the last one. */
  lemma PlainPortMeans(host: string, port: Port)
    requires !("[" <= host) && !port.NoPort?
    ensures PortFromHostHeader(host) == port <==>
              exists k: nat :: k < |host| && host[k] == ':' && Parsed(Some(host[k + 1..])) == port
  {
    AfterLastMeans(host, ':');
    forall k: nat | k < |host| && host[k] == ':' && LooksNumeric(host[k + 1..])
      ensures AfterLast(host, ':') == Some(host[k + 1..])
    {
      LastColon(host, k);
    }
    if AfterLast(host, ':').Some? {
      var rest := AfterLast(host, ':').value;
      assert host[|host| - |rest| - 1] == ':' && host[|host| - |rest| - 1 + 1..] == rest;
    }
  }

  /** What a bracketed address names is what follows its first `]:`. */
  lemma BracketedPortMeans(host: string, port: Port)
    requires "[" <= host && !port.NoPort?
    ensures PortFromHostHeader(host) == port <==>
              exists k: nat :: FirstMarkAt(host, "]:", k) && Parsed(Some(host[k + 2..])) == port
  {
    AfterFirstMeans(host, "]:");
    var found := AfterFirst(host, "]:");
    if found.Some? {
      var at := |host| - |found.value| - 2;
      assert FirstMarkAt(host, "]:", at) && host[at + 2..] == found.value;
      forall k: nat | FirstMarkAt(host, "]:", k) ensures k == at { assert !(k < at) && !(at < k); }
    }
  }

  /** A number after the colon is the port, up to 4300 digits; a longer one makes the reading raise. */
  lemma DigitsArePort(name: string, digits: string)
    requires !("[" <= name + ":") && IsDigits(digits)
    ensures PortFromHostHeader(name + ":" + digits) == if |digits| <= 4300 then Port(ToNat(digits)) else Raises
  {
    var host := name + ":" + digits;
    assert host[|name|] == ':' && host[|name| + 1..] == digits;
    assert host[0] == (name + ":")[0];
    DigitsParse(digits);
    LastColon(host, |name|);
  }

  lemma DigitsParse(digits: string)
    requires IsDigits(digits)
    ensures LooksNumeric(digits)
    ensures Parsed(Some(digits)) == if |digits| <= 4300 then Port(ToNat(digits)) else Raises
  {
    assert MAX_DIGITS == 4300;
  }

  /** A superscript after the colon makes the reading raise. */
  lemma SuperscriptPortRaises(c: char)
    requires c in "\U{B9}\U{B2}\U{B3}"
    ensures PortFromHostHeader("app:" + [c]) == Raises
  {
    var host := "app:" + [c];
    assert host[0] == 'a' && host[3] == ':' && host[3 + 1..] == [c];
    assert c == '\U{B9}' || c == '\U{B2}' || c == '\U{B3}';
    assert [c][0] in [c];
    PlainPortMeans(host, Raises);
  }

  /** Any other text after the last colon names no port. */
  lemma OtherTextIsNoPort(name: string, text: string)
    requires !("[" <= name + ":") && ':' !in text
    requires text == "" || exists c | c in text :: !IsDigit(c) && c !in "\U{B9}\U{B2}\U{B3}"
    ensures PortFromHostHeader(name + ":" + text) == NoPort
  {
    var host := name + ":" + text;
    assert host[|name|] == ':' && host[|name| + 1..] == text && host[0] == (name + ":")[0];
    AfterLastMeans(host, ':');
    var rest := AfterLast(host, ':').value;
    var at := |host| - |rest| - 1;
    Suffix(host, |name| + 1);
    Suffix(host, at + 1);
    assert at == |name|;
  }
}
