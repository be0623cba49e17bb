/** UTF-8 as the lexer meets it (`read_utf8_char` in `factum-core/src/lexer.rs`). */
module Utf8 {
  import opened Types

  predicate IsAscii(c: char) {
    c < '\U{80}'
  }

  /** The length the leading byte announces; 0 for a byte that cannot lead. */
  function Width(lead: char): (w: nat)
    ensures w <= 4
  {
    if lead < '\U{80}' then 1
    else if '\U{C0}' <= lead <= '\U{DF}' then 2
    else if '\U{E0}' <= lead <= '\U{EF}' then 3
    else if '\U{F0}' <= lead <= '\U{F7}' then 4
    else 0
  }

  predicate IsContinuation(c: char) {
    '\U{80}' <= c <= '\U{BF}'
  }

  /** `b` is one well-formed character, as `str::from_utf8` accepts it: no overlong form, no surrogate,
      nothing above U+10FFFF. */
  predicate IsOneChar(b: Text) {
    match |b|
    case 1 => IsAscii(b[0])
    case 2 => '\U{C2}' <= b[0] <= '\U{DF}' && IsContinuation(b[1])
    case 3 =>
      && '\U{E0}' <= b[0] <= '\U{EF}' && IsContinuation(b[1]) && IsContinuation(b[2])
      && (b[0] == '\U{E0}' ==> '\U{A0}' <= b[1])
      && (b[0] == '\U{ED}' ==> b[1] <= '\U{9F}')
    case 4 =>
      && '\U{F0}' <= b[0] <= '\U{F4}'
      && IsContinuation(b[1]) && IsContinuation(b[2]) && IsContinuation(b[3])
      && (b[0] == '\U{F0}' ==> '\U{90}' <= b[1])
      && (b[0] == '\U{F4}' ==> b[1] <= '\U{8F}')
    case _ => false
  }

  /** A Rust string: a sequence of well-formed characters. */
  predicate Valid(s: Text) {
    s == [] ||
    var w := Width(s[0]);
    0 < w <= |s| && IsOneChar(s[..w]) && Valid(s[w..])
  }

  datatype Utf8Error = InvalidUtf8 | TruncatedUtf8

  /** `read_utf8_char`: the length of the character `s` starts with. */
  function ReadChar(s: Text): (r: Result<nat, Utf8Error>)
    requires s != []
    ensures r.Ok? ==> 0 < r.value <= |s| && IsOneChar(s[..r.value])
  {
    var w := Width(s[0]);
    if w == 0 then Err(InvalidUtf8)
    else if w > |s| then Err(TruncatedUtf8)
    else if IsOneChar(s[..w]) then Ok(w)
    else Err(InvalidUtf8)
  }

  /** `String::push` of a byte taken as a Latin-1 character. */
  function PushByte(c: char): Text {
    if IsAscii(c) then [c] else [(0xC2 + c as int / 64 % 2) as char, (0x80 + c as int % 64) as char]
  }
}
