/**
 * Client code: concrete call sequences on the builder and the quantifiers,
 * with the pattern text each one produces.
 */
module Scenarios {
  import opened Wrappers
  import opened Escaping
  import opened Quantifiers
  import opened Builder

  /** Class escaping: a leading '^' gets a backslash. */
  lemma ClassCaretExample()
    ensures MakeSafeForCharacterClass("^a") == "\\^a"
  {
    EscapeWithUnchanged("^a", "]");
  }

  /** Class escaping: '-' is not escaped, so "a-f" stays a range. */
  lemma ClassRangeExample()
    ensures MakeSafeForCharacterClass("a-f") == "a-f"
  {
    EscapeWithUnchanged("a-f", "]");
  }

  /** Class escaping: a leading '^' and a ']' both get a backslash. */
  lemma ClassBracketExample()
    ensures MakeSafeForCharacterClass("^]") == "\\^\\]"
  {
    assert EscapeWith("^]", "]") == "^\\]" by {
      EscapeWithFirst("^]", "]");
      EscapeWithUnchanged("^", "]");
      assert "^]"[1..] == "]";
      EscapeWithSingle(']', "]");
    }
  }

  method QuantifiedTextIsWrapped() {
    var b := new RegexBuilder();
    var q := Exactly(2);
    b.RegexText("a*b", q);
    assert b.buf == "(?:a*b){2}";
    var p := b.BuildRegex(s => true);
    assert p == Built("(?:a*b){2}");
  }

  method GroupBalance() {
    var b := new RegexBuilder();
    b.StartGroup();
    var built := b.BuildRegex(s => true);
    assert built == BuilderFailure(RegexBuilderException("A group has been started but not ended", "("));
    b.RegexText("abc", null);
    var ended := b.EndGroup(null);
    assert ended == Pass && b.buf == "(abc)";
    ended := b.EndGroup(null);
    assert ended == Fail(RegexBuilderException(EndGroupMessage, "(abc)"));
    built := b.BuildRegex(s => true);
    assert built == Built("(abc)");
    built := b.BuildRegex(s => true);
    assert built == Built("");
  }

  /** A pattern the compiler rejects leaves the buffer in place. */
  method RejectedPatternIsKept() {
    var b := new RegexBuilder();
    b.RegexText("(", null);
    var built := b.BuildRegex(s => s != "(");
    assert built == PatternSyntaxFailure("(") && b.buf == "(";
  }

  /**
   * ButAsFewAsPossible changes the quantifier object itself: text already
   * appended keeps the old suffix, later uses and every alias see the '?',
   * and each further call adds one more.
   */
  method LazyQuantifierIsShared() {
    var b := new RegexBuilder();
    var q := ZeroOrMore();
    var alias := q;
    b.Digit(q);
    var lazy := q.ButAsFewAsPossible();
    assert lazy == q && alias.regexString == "*?";
    b.Digit(alias);
    assert b.buf == "\\d*\\d*?";
    lazy := q.ButAsFewAsPossible();
    assert q.regexString == "*??";
  }
}
