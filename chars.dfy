/** Character classes of the lexer, as the C library defines them in the "C" locale.
    The source buffer is a sequence of `char`, one element per byte. */
module Chars {

  /** isspace: space, tab, newline, vertical tab, form feed, carriage return */
  predicate IsSpace(c: char) {
    c == ' ' || c == '\t' || c == '\n' || c == '\r' || c as int == 0x0B || c as int == 0x0C
  }

  /** isdigit */
  predicate IsDigit(c: char) {
    '0' <= c <= '9'
  }

  /** isalpha */
  predicate IsAlpha(c: char) {
    'A' <= c <= 'Z' || 'a' <= c <= 'z'
  }

  /** A character that may start an identifier */
  predicate IsIdentStart(c: char) {
    IsAlpha(c) || c == '_'
  }

  /** A character that may continue an identifier: isalnum or underscore */
  predicate IsIdentChar(c: char) {
    IsAlpha(c) || IsDigit(c) || c == '_'
  }

  /** The numeric value of a decimal digit */
  function DigitValue(c: char): (d: nat)
    requires IsDigit(c)
    ensures d < 10
  {
    c as int - '0' as int
  }

  /** The decimal digit for a value below ten */
  function DigitChar(d: nat): (c: char)
    requires d < 10
    ensures IsDigit(c) && DigitValue(c) == d
  {
    ('0' as int + d) as char
  }
}
