/** Bytes and the character classes of http_parser.c (strict mode).

    A byte is a `char`; C bytes are the values below 256, and every function
    here is total, so nothing depends on larger values. */
module Bytes {
  const NUL: char := '\0'
  const CR: char := '\r'
  const LF: char := '\n'
  const TAB: char := '\t'
  const FF: char := 12 as char
  const DEL: char := 127 as char

  type Text = seq<char>

  /** LOWER(c): `c | 0x20`, for every byte and not only for letters. */
  function Lower(c: char): (r: char)
    ensures r != NUL
  {
    var n := c as int;
    if n < 32 || 64 <= n < 96 || 128 <= n < 160 || 192 <= n < 224 then (n + 32) as char else c
  }

  /** Lower case of ASCII letters, identity elsewhere. */
  function Fold(c: char): char {
    if 'A' <= c <= 'Z' then (c as int + 32) as char else c
  }

  function FoldAll(s: Text): (r: Text)
    ensures |r| == |s|
    ensures forall i :: 0 <= i < |s| ==> r[i] == Fold(s[i])
  {
    seq(|s|, i requires 0 <= i < |s| => Fold(s[i]))
  }

  predicate IsNum(c: char) {
    '0' <= c <= '9'
  }

  predicate IsAlpha(c: char) {
    'a' <= Lower(c) <= 'z'
  }

  predicate IsAlphaNum(c: char) {
    IsAlpha(c) || IsNum(c)
  }

  predicate IsHex(c: char) {
    IsNum(c) || 'a' <= Lower(c) <= 'f'
  }

  predicate IsMark(c: char) {
    c == '-' || c == '_' || c == '.' || c == '!' || c == '~' || c == '*' || c == '\'' || c == '(' || c == ')'
  }

  predicate IsUserinfoChar(c: char) {
    IsAlphaNum(c) || IsMark(c) || c == '%' || c == ';' || c == ':' || c == '&' || c == '=' || c == '+' ||
    c == '$' || c == ','
  }

  predicate IsHostChar(c: char) {
    IsAlphaNum(c) || c == '.' || c == '-'
  }

  /** The bit set `normal_url_char`: '!' to '~' without '#' and '?'. */
  predicate IsUrlChar(c: char) {
    '!' <= c <= '~' && c != '#' && c != '?'
  }

  predicate IsHeaderChar(c: char) {
    c == CR || c == LF || c == TAB || (c as int > 31 && c != DEL)
  }

  /** STRICT_TOKEN(c): the lower-cased token character, or NUL when `c` is no token character. */
  function Token(c: char): char {
    if 'A' <= c <= 'Z' then (c as int + 32) as char
    else if IsNum(c) || '^' <= c <= 'z' || '#' <= c <= '\'' ||
            c == '!' || c == '*' || c == '+' || c == '-' || c == '.' || c == '|' || c == '~' then c
    else NUL
  }

  /** The table `unhex`: its last 128 entries are not listed and read as 0. */
  function Unhex(c: char): int {
    if IsNum(c) then c as int - '0' as int
    else if 'A' <= c <= 'F' then c as int - 'A' as int + 10
    else if 'a' <= c <= 'f' then c as int - 'a' as int + 10
    else if c as int >= 128 then 0
    else -1
  }

  function Digit(c: char): (d: nat)
    requires IsNum(c)
    ensures d <= 9
  {
    c as int - '0' as int
  }

  /** A C string read at an index up to and including its terminator. */
  function At(s: string, i: nat): char {
    if i < |s| then s[i] else NUL
  }
}
