/** The character classes the parsers test for. */
module Characters {
  /** An ASCII letter or digit, or an underscore. */
  predicate IsWordChar(c: char) {
    'a' <= c <= 'z' || 'A' <= c <= 'Z' || '0' <= c <= '9' || c == '_'
  }

  predicate IsAsciiSpace(c: char) {
    c == ' ' || c == '\t' || c == '\n' || c as int == 12 || c == '\r'
  }

  /** Unicode's White_Space property. */
  predicate IsWhitespace(c: char) {
    var n := c as int;
    || 9 <= n <= 13 || n == 32 || n == 0x85 || n == 0xA0 || n == 0x1680 || 0x2000 <= n <= 0x200A
    || n == 0x2028 || n == 0x2029 || n == 0x202F || n == 0x205F || n == 0x3000
  }

  /** Unicode's control characters, the ASCII ones and those up to U+009F. */
  predicate IsControl(c: char) {
    var n := c as int;
    n <= 31 || 127 <= n <= 159
  }

  /** The characters of Unicode's White_Space property, and the ASCII ones but the vertical tab. */
  lemma WhitespaceCharacters(c: char)
    ensures IsWhitespace(c) <==>
            c as int in [0x09, 0x0A, 0x0B, 0x0C, 0x0D, 0x20, 0x85, 0xA0, 0x1680, 0x2000, 0x2001, 0x2002, 0x2003, 0x2004,
                         0x2005, 0x2006, 0x2007, 0x2008, 0x2009, 0x200A, 0x2028, 0x2029, 0x202F, 0x205F, 0x3000]
    ensures IsAsciiSpace(c) <==> IsWhitespace(c) && c as int < 128 && c as int != 0x0B
  {
  }
}
