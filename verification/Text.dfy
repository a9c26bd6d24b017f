/** The string operations of Python that the repository relies on: `strip`, `rstrip` and
    `startswith`, over code points. */
module Text {

  /** The code points that `str.strip()` removes. */
  predicate IsSpace(c: char) {
    var n := c as int;
    || 0x09 <= n <= 0x0D || 0x1C <= n <= 0x20 || n == 0x85 || n == 0xA0 || n == 0x1680
    || 0x2000 <= n <= 0x200A || n == 0x2028 || n == 0x2029 || n == 0x202F || n == 0x205F || n == 0x3000
  }

  predicate IsSlash(c: char) { c == '/' }

  predicate StartsWith(s: string, prefix: string) { prefix <= s }

  /** `s.rstrip(...)` */
  function RStrip(s: string, drop: char -> bool): string {
    if s == "" || !drop(s[|s| - 1]) then s else RStrip(s[..|s| - 1], drop)
  }

  /** `s.lstrip(...)` */
  function LStrip(s: string, drop: char -> bool): string {
    if s == "" || !drop(s[0]) then s else LStrip(s[1..], drop)
  }

  /** `rstrip` leaves the longest prefix that does not end in a dropped character. */
  lemma {:induction false} RStripIsLongestPrefix(s: string, drop: char -> bool)
    ensures RStrip(s, drop) <= s
    ensures RStrip(s, drop) == "" || !drop(RStrip(s, drop)[|RStrip(s, drop)| - 1])
    ensures forall i | |RStrip(s, drop)| <= i < |s| :: drop(s[i])
  {
    if s != "" && drop(s[|s| - 1]) { RStripIsLongestPrefix(s[..|s| - 1], drop); }
  }

  /** `lstrip` leaves the longest suffix that does not start with a dropped character. */
  lemma {:induction false} LStripIsLongestSuffix(s: string, drop: char -> bool)
    ensures |LStrip(s, drop)| <= |s| && LStrip(s, drop) == s[|s| - |LStrip(s, drop)|..]
    ensures LStrip(s, drop) == "" || !drop(LStrip(s, drop)[0])
    ensures forall i | 0 <= i < |s| - |LStrip(s, drop)| :: drop(s[i])
  {
    if s != "" && drop(s[0]) {
      var rest, kept := s[1..], |LStrip(s[1..], drop)|;
      LStripIsLongestSuffix(rest, drop);
      assert rest[|rest| - kept..] == s[|s| - kept..];
      forall i | 0 <= i < |s| - kept ensures drop(s[i]) {
        if i > 0 { assert s[i] == rest[i - 1]; }
      }
    }
  }

  function Strip(s: string, drop: char -> bool): string {
    LStrip(RStrip(s, drop), drop)
  }

  /** `s.removeprefix(prefix)`. */
  function RemovePrefix(s: string, prefix: string): (r: string)
    ensures prefix <= s ==> prefix + r == s
    ensures !(prefix <= s) ==> r == s
  {
    if prefix <= s then s[|prefix|..] else s
  }

  /** What `strip` takes away at either end is dropped characters, and what it leaves neither starts nor
      ends with one. */
  lemma StripMeans(s: string, drop: char -> bool) returns (before: string, after: string)
    ensures s == before + Strip(s, drop) + after
    ensures forall c | c in before + after :: drop(c)
    ensures var t := Strip(s, drop); t != "" ==> !drop(t[0]) && !drop(t[|t| - 1])
  {
    var r, t := RStrip(s, drop), Strip(s, drop);
    RStripIsLongestPrefix(s, drop);
    LStripIsLongestSuffix(r, drop);
    before, after := r[..|r| - |t|], s[|r|..];
    assert s == r + after && r == before + t;
    if t != "" { assert t[|t| - 1] == r[|r| - 1]; }
  }

  /** A slash is added where there is none. */
  lemma LeadingSlashAdded(s: string)
    ensures WithLeadingSlash("/" + s) == "/" + s
    ensures s == "" || s[0] != '/' ==> WithLeadingSlash(s) == "/" + s
  {
  }

  function WithLeadingSlash(s: string): (r: string)
    ensures r != "" && r[0] == '/'
    ensures r == s || r == "/" + s
  {
    if StartsWith(s, "/") then s else "/" + s
  }
}
