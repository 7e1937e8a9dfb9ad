/** Character classes of Rust's `char` that the tokenizers rely on. */
module Chars {

  /** `char::is_whitespace`: the Unicode White_Space property, written out in full. */
  predicate IsWhitespace(c: char)
  {
    ('\t' <= c <= '\r') || c == ' ' || c == '\U{85}' || c == '\U{A0}' || c == '\U{1680}'
    || ('\U{2000}' <= c <= '\U{200A}') || c == '\U{2028}' || c == '\U{2029}'
    || c == '\U{202F}' || c == '\U{205F}' || c == '\U{3000}'
  }

  /** The digits `str::parse::<i64>` accepts. */
  predicate IsAsciiDigit(c: char)
  {
    '0' <= c <= '9'
  }

  /** `char::is_numeric`: the ASCII digits and a selection of the other characters
      Unicode classes as numeric (superscripts, vulgar fractions, Arabic-Indic,
      Devanagari and fullwidth digits, Roman numerals). */
  predicate IsNumeric(c: char)
  {
    IsAsciiDigit(c)
    || c == '\U{B2}' || c == '\U{B3}' || c == '\U{B9}' || ('\U{BC}' <= c <= '\U{BE}')
    || ('\U{660}' <= c <= '\U{669}') || ('\U{966}' <= c <= '\U{96F}')
    || ('\U{2160}' <= c <= '\U{2182}') || ('\U{2185}' <= c <= '\U{2188}')
    || ('\U{FF10}' <= c <= '\U{FF19}')
  }

  /** `char::is_alphabetic`, restricted to the ASCII letters. */
  predicate IsAlphabetic(c: char)
  {
    ('a' <= c <= 'z') || ('A' <= c <= 'Z')
  }

  /** `char::is_alphanumeric`: alphabetic or numeric. */
  predicate IsAlphanumeric(c: char)
  {
    IsAlphabetic(c) || IsNumeric(c)
  }
}
