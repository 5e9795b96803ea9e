/** Character classes used by the regular expressions of the compliance checker.
    Python's `re` classes are Unicode-aware; the model fixes a concrete approximation
    of each class (see README, "Left out"). */
module CharClass {

  /** `\s`: ASCII whitespace plus the Unicode separators most often met in CSV cells. */
  predicate IsSpace(c: char) {
    c == ' ' || c == '\t' || c == '\n' || c == '\r' || c == '\U{B}' || c == '\U{C}'
    || ('\U{1C}' <= c <= '\U{1F}') || c == '\U{85}' || c == '\U{A0}'
  }

  /** `\d`: a decimal digit. */
  predicate IsDigit(c: char) {
    '0' <= c <= '9'
  }

  /** `\w`: letters, digits and the underscore (ASCII, plus the German umlauts and sharp s). */
  predicate IsWordChar(c: char) {
    ('a' <= c <= 'z') || ('A' <= c <= 'Z') || IsDigit(c) || c == '_' || IsUmlaut(c)
  }

  predicate IsUmlaut(c: char) {
    c == 'ä' || c == 'ö' || c == 'ü' || c == 'Ä' || c == 'Ö' || c == 'Ü' || c == 'ß'
  }

  /** `[\wäöüÄÖÜß-]`: the characters of a name in the Authors grammar. */
  predicate IsNameChar(c: char) {
    IsWordChar(c) || IsUmlaut(c) || c == '-'
  }

  /** No character of `\w` (nor of the name class) is whitespace. */
  lemma NameCharNotSpace(c: char)
    ensures IsNameChar(c) ==> !IsSpace(c)
    ensures IsWordChar(c) ==> !IsSpace(c)
  {
  }
}
