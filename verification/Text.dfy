/** Text rules shared by the store and the audit log.  A Dafny char is a Unicode scalar value, so
    the surrogates both rules exclude cannot occur. */
module Text {

  /** Characters str.strip() removes. */
  predicate IsSpace(c: char) {
    var n := c as int;
    || 9 <= n <= 13 || 28 <= n <= 32 || n == 0x85 || n == 0xA0 || n == 0x1680
    || 0x2000 <= n <= 0x200A || n == 0x2028 || n == 0x2029 || n == 0x202F || n == 0x205F || n == 0x3000
  }

  predicate NonBlank(s: string) {
    exists i {:trigger IsSpace(s[i])} :: 0 <= i < |s| && !IsSpace(s[i])
  }

  const MAX_STORED_TEXT := 4096

  predicate Storable(s: string) {
    |s| <= MAX_STORED_TEXT && '\0' !in s
  }

  predicate StoredText(s: string) {
    NonBlank(s) && Storable(s)
  }

  predicate IsControl(c: char) {
    c as int < 0x20 || 0x7F <= c as int <= 0x9F
  }

  function Utf8Width(c: char): nat {
    var n := c as int;
    if n < 0x80 then 1 else if n < 0x800 then 2 else if n < 0x10000 then 3 else 4
  }

  function Utf8Length(s: string): nat {
    if s == "" then 0 else Utf8Width(s[0]) + Utf8Length(s[1..])
  }

  /** Text an audit event may carry: nonblank, no control characters, bounded in bytes. */
  predicate AuditText(s: string, maximum: nat) {
    NonBlank(s) && (forall i {:trigger IsControl(s[i])} :: 0 <= i < |s| ==> !IsControl(s[i]))
        && Utf8Length(s) <= maximum
  }

  /** A decimal or lower-case hexadecimal digit. */
  function DigitChar(d: nat): char
    requires d < 16
  {
    if d < 10 then '0' + d as char else 'a' + (d - 10) as char
  }
}
