/** Character classes of the TOML library (util/toml.hpp), over code points. */
module CharClasses {

  predicate IsAsciiHorizontalWhitespace(c: int) { c == '\t' as int || c == ' ' as int }

  predicate IsNonAsciiHorizontalWhitespace(c: int) {
    c in {0xA0, 0x1680, 0x180E, 0x202F, 0x205F, 0x2060, 0x3000, 0xFEFF} || 0x2000 <= c <= 0x200B
  }

  predicate IsHorizontalWhitespace(c: int) { IsAsciiHorizontalWhitespace(c) || IsNonAsciiHorizontalWhitespace(c) }

  predicate IsAsciiVerticalWhitespace(c: int) { 0x0A <= c <= 0x0D }

  predicate IsNonAsciiVerticalWhitespace(c: int) { 0x2028 <= c <= 0x2029 || c == 0x85 }

  predicate IsWhitespace(c: int) {
    IsHorizontalWhitespace(c) || IsAsciiVerticalWhitespace(c) || IsNonAsciiVerticalWhitespace(c)
  }

  predicate IsValueTerminator(c: int) {
    IsWhitespace(c) || c == ']' as int || c == '}' as int || c == ',' as int || c == '#' as int
  }

  predicate IsControl(c: int) { c <= 0x1F || c == 0x7F }

  predicate IsNonTabControl(c: int) { c <= 0x08 || 0x0A <= c <= 0x1F || c == 0x7F }

  predicate IsDecimalDigit(c: int) { '0' as int <= c <= '9' as int }

  predicate IsHexDigit(c: int) {
    IsDecimalDigit(c) || 'A' as int <= c <= 'F' as int || 'a' as int <= c <= 'f' as int
  }

  predicate IsBareKeyCharacter(c: int) {
    IsDecimalDigit(c) || 'A' as int <= c <= 'Z' as int || 'a' as int <= c <= 'z' as int || c == '-' as int
      || c == '_' as int
  }

  predicate IsStringDelimiter(c: int) { c == '"' as int || c == '\'' as int }

  /** hex_to_dec; or-ing 0x20 into a letter makes it lower case. */
  function HexToDec(c: int): (d: nat)
    requires IsHexDigit(c)
    ensures d < 16
    ensures IsDecimalDigit(c) ==> c == '0' as int + d
    ensures 'a' as int <= c <= 'f' as int ==> c == 'a' as int + d - 10
    ensures 'A' as int <= c <= 'F' as int ==> c == 'A' as int + d - 10
  {
    if c >= 0x41 then 10 + (if c < 0x61 then c + 0x20 else c) - 0x61 else c - 0x30
  }

  // ---------------------------------------------------------------------------------------
  // In numbers, and as the bit masks they are tested with
  // ---------------------------------------------------------------------------------------

  lemma WhiteSpaceInNumbers(c: int)
    ensures IsHorizontalWhitespace(c)
            <==> c in {0x09, 0x20, 0xA0, 0x1680, 0x180E, 0x2000, 0x2001, 0x2002, 0x2003, 0x2004, 0x2005, 0x2006, 0x2007,
                       0x2008, 0x2009, 0x200A, 0x200B, 0x202F, 0x205F, 0x2060, 0x3000, 0xFEFF}
    ensures IsWhitespace(c) <==> IsHorizontalWhitespace(c) || c in {0x0A, 0x0B, 0x0C, 0x0D, 0x85, 0x2028, 0x2029}
    ensures IsAsciiHorizontalWhitespace(c) <==> c == 0x09 || c == 0x20
    ensures IsAsciiVerticalWhitespace(c) <==> c in {0x0A, 0x0B, 0x0C, 0x0D}
    ensures IsNonAsciiVerticalWhitespace(c) <==> c in {0x85, 0x2028, 0x2029}
  {
  }

  lemma ClassesInNumbers(c: int)
    requires c >= 0
    ensures IsValueTerminator(c) <==> IsWhitespace(c) || c in {0x5D, 0x7D, 0x2C, 0x23}
    ensures IsControl(c) <==> c < 0x20 || c == 0x7F
    ensures IsNonTabControl(c) <==> (c < 0x20 || c == 0x7F) && c != 0x09
    ensures IsDecimalDigit(c) <==> 0x30 <= c < 0x3A
    ensures IsHexDigit(c) <==> 0x30 <= c < 0x3A || 0x41 <= c < 0x47 || 0x61 <= c < 0x67
    ensures IsBareKeyCharacter(c)
            <==> 0x30 <= c < 0x3A || 0x41 <= c < 0x5B || 0x61 <= c < 0x7B || c == 0x2D || c == 0x5F
    ensures IsStringDelimiter(c) <==> c == 0x22 || c == 0x27
  {
  }

  /** The test for horizontal white space beyond ASCII: a mask over 64 stretches, and then the few that remain. */
  function BlankByMask(c: bv64): bool {
    if c < 0xA0 || c > 0xFEFF then false
    else
      var stretch := (c - 0xA0) / 0x3FA;
      if ((1 as bv64) << stretch) & 0x7FFF_FFFF_FFFF_F75E != 0 then false
      else if c == 0xA0 || c == 0x3000 || c == 0xFEFF then true
      else if stretch == 5 then c == 0x1680 || c == 0x180E
      else if stretch == 7 then (0x2000 <= c && c <= 0x200B) || (0x205F <= c && c <= 0x2060) || c == 0x202F
      else false
  }

  lemma BlankMask(c: bv64)
    requires c < 0x11_0000
    ensures BlankByMask(c)
            <==> c == 0xA0 || c == 0x1680 || c == 0x180E || c == 0x202F || c == 0x205F || c == 0x2060 || c == 0x3000
                 || c == 0xFEFF || (0x2000 <= c && c <= 0x200B)
  {
  }

  /** The tests for bare keys and hexadecimal digits: a mask over 64 neighbouring characters. */
  lemma LetterMasks(c: bv64)
    requires c < 0x11_0000
    ensures (c >= 0x2D && c <= 0x7A
             && ((c - 0x2D) / 0x40 != 0 || ((1 as bv64) << (c - 0x2D)) & 0xFFF4_3FFF_FFF0_1FF9 != 0))
            <==> (0x30 <= c && c < 0x3A) || (0x41 <= c && c < 0x5B) || (0x61 <= c && c < 0x7B) || c == 0x2D || c == 0x5F
    ensures (c >= 0x30 && c <= 0x66 && ((1 as bv64) << (c - 0x30)) & 0x7E_0000_007E_03FF != 0)
            <==> (0x30 <= c && c < 0x3A) || (0x41 <= c && c < 0x47) || (0x61 <= c && c < 0x67)
  {
  }
}
