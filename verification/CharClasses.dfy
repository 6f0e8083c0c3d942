/** Python's character classes, character by character. */
module CharClasses {
  import opened Text
  import opened Numbers
  import J = JobConditions
  import P = PythonBool
  import S = StaleArtifacts
  import G = GitPaths
  import H = ShellComments

  const DIGITS := "0123456789"
  const LOWER := "abcdefghijklmnopqrstuvwxyz"
  const UPPER := "ABCDEFGHIJKLMNOPQRSTUVWXYZ"

  lemma DigitIff(c: char)
    ensures IsDigit(c) <==> c in DIGITS
    ensures G.IsOctal(c) <==> c in "01234567"
  {
  }

  lemma LowerIff(c: char)
    ensures 'a' <= c <= 'z' <==> c in LOWER
  {
  }

  lemma UpperIff(c: char)
    ensures 'A' <= c <= 'Z' <==> c in UPPER
  {
  }

  /** What a token of a marker expression begins with, and goes on with. */
  lemma WordIff(c: char)
    ensures P.IsWordStart(c) <==> c in UPPER || c in LOWER || c == '_'
    ensures P.IsWordChar(c) <==> c in UPPER || c in LOWER || c == '_' || c in DIGITS
  {
    LowerIff(c);
    UpperIff(c);
    DigitIff(c);
  }

  /** What the names of outputs and of events are made of. */
  lemma NameIff(c: char)
    ensures J.IsOutputChar(c) <==> c in UPPER || c in LOWER || c in DIGITS || c == '_' || c == '-'
    ensures J.IsEventChar(c) <==> c in LOWER || c == '_'
  {
    LowerIff(c);
    UpperIff(c);
    DigitIff(c);
  }

  /** What an incremental session's hash is made of, and a unit's. */
  lemma HashIff(s: string)
    ensures S.IsBase36(s) <==> forall c | c in s :: c in DIGITS || c in LOWER
    ensures IsHex(s) <==> forall c | c in s :: c in "0123456789abcdef"
  {
    forall c ensures 'a' <= c <= 'z' <==> c in LOWER {
      LowerIff(c);
    }
    forall c ensures IsDigit(c) <==> c in DIGITS {
      DigitIff(c);
    }
  }

  /** What separates words for the shell without being part of any. */
  lemma ShellIff(c: char)
    ensures H.IsBlank(c) <==> c in " \t"
    ensures H.IsOperator(c) <==> c in "&|;<>()"
  {
  }

  /** White space, and what ends a line. */
  lemma SpaceIff(c: char)
    ensures IsSpace(c) <==> c in "\t\n\U{0B}\U{0C}\r\U{1C}\U{1D}\U{1E}\U{1F} \U{85}\U{A0}\U{1680}\U{2000}\U{2001}\U{2002}\U{2003}"
                                 + "\U{2004}\U{2005}\U{2006}\U{2007}\U{2008}\U{2009}\U{200A}\U{2028}\U{2029}\U{202F}\U{205F}\U{3000}"
    ensures IsLineBreak(c) <==> c in "\n\U{0B}\U{0C}\r\U{1C}\U{1D}\U{1E}\U{85}\U{2028}\U{2029}"
  {
  }
}
