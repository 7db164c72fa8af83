/**
 * RegexBuilder: a text buffer and an open-group counter that every fluent
 * operation extends, and buildRegex, which hands the buffer to the platform
 * regex compiler when no group is left open.
 */
module Builder {
  import opened Wrappers
  import opened Decimal
  import opened Escaping
  import opened Quantifiers

  /** RegexBuilderException: its message and the buffer text when it was thrown. */
  datatype RegexBuilderException = RegexBuilderException(message: string, regexString: string)

  /** What buildRegex gives: the compiled pattern, the builder's exception, or the compiler's rejection. */
  datatype BuildResult =
    | Built(pattern: string)
    | BuilderFailure(exception: RegexBuilderException)
    | PatternSyntaxFailure(pattern: string)

  const EndGroupMessage: string := "Cannot call endGroup() until a group has been started with startGroup()"

  /** buildRegex's message for exactly one open group. */
  const SingleGroupMessage: string := "A group has been started but not ended"

  /** What follows the count in buildRegex's message for several open groups. */
  const GroupsTail: string := " groups have been started but not ended"

  /**
   * The message buildRegex reports when openGroups groups are still open: the
   * one-group sentence exactly for one group, otherwise the count, read back
   * from the numeral in front of GroupsTail.
   */
  function UnterminatedMessage(openGroups: nat): (r: string)
    requires openGroups > 0
    ensures openGroups == 1 <==> r == SingleGroupMessage
    ensures openGroups > 1 ==>
      |r| > |GroupsTail| && r[|r| - |GroupsTail|..] == GroupsTail
      && ParseInt(r[..|r| - |GroupsTail|]) == Some(openGroups)
  {
    if openGroups == 1 then SingleGroupMessage
    else
      var d := IntToString(openGroups);
      var r := d + GroupsTail;
      assert r[..|d|] == d && r[|d|..] == GroupsTail;
      ParseIntToString(openGroups);
      r
  }

  /** The unterminated-group message tells the number of open groups exactly. */
  lemma UnterminatedMessageGivesCount(a: nat, b: nat)
    requires a > 0 && b > 0
    requires UnterminatedMessage(a) == UnterminatedMessage(b)
    ensures a == b
  {
  }

  /** The text a quantifier adds: its current text, or nothing when there is none. */
  function Suffix(q: RegexQuantifier?): string
    reads q
  {
    if q == null then "" else q.regexString
  }

  /** A fragment with an optional quantifier: wrapped in a non-capturing group whenever a quantifier is given. */
  function Quantified(fragment: string, q: RegexQuantifier?): string
    reads q
  {
    if q == null then fragment else "(?:" + fragment + ")" + q.regexString
  }

  class RegexBuilder {
    /** The pattern built so far (the StringBuilder). */
    var buf: string
    /** The number of groups started and not yet ended (openGroupCount). */
    var open: nat

    constructor ()
      ensures buf == [] && open == 0
    {
      buf := [];
      open := 0;
    }

    /**
     * buildRegex. compiles stands for the platform regex compiler's verdict on
     * a pattern. With no open group the buffer is compiled and, only once that
     * has succeeded, cleared; with open groups the exception carries a copy of
     * the buffer, which is left as it was.
     */
    method BuildRegex(compiles: string -> bool) returns (r: BuildResult)
      modifies this
      ensures open == old(open)
      ensures old(open) == 0 && compiles(old(buf)) ==> r == Built(old(buf)) && buf == []
      ensures old(open) == 0 && !compiles(old(buf)) ==> r == PatternSyntaxFailure(old(buf)) && buf == old(buf)
      ensures old(open) > 0 ==>
        r == BuilderFailure(RegexBuilderException(UnterminatedMessage(old(open)), old(buf))) && buf == old(buf)
    {
      if open == 0 {
        if compiles(buf) {
          r := Built(buf);
          buf := [];
        } else {
          r := PatternSyntaxFailure(buf);
        }
      } else if open == 1 {
        r := BuilderFailure(RegexBuilderException(SingleGroupMessage, buf));
      } else {
        r := BuilderFailure(RegexBuilderException(IntToString(open) + GroupsTail, buf));
      }
    }

    /** Literal text: escaped, then added as regexText adds it. */
    method Text(text: string, q: RegexQuantifier?)
      modifies this
      ensures buf == old(buf) + Quantified(MakeSafeForRegex(text), q) && open == old(open)
    {
      RegexText(MakeSafeForRegex(text), q);
    }

    /** Raw regex text, unescaped; with a quantifier it goes inside a non-capturing group whatever its length. */
    method RegexText(text: string, q: RegexQuantifier?)
      modifies this
      ensures buf == old(buf) + Quantified(text, q) && open == old(open)
      decreases if q == null then 0 else 1
    {
      if q == null {
        Append(text, null);
      } else {
        StartNonCapturingGroup();
        RegexText(text, null);
        var ended := EndGroup(q);
        assert ended == Pass;
      }
    }

    /** Matches any character. */
    method AnyCharacter(q: RegexQuantifier?)
      modifies this
      ensures buf == old(buf) + "." + Suffix(q) && open == old(open)
    {
      Append(".", q);
    }

    /** Matches any single whitespace character. */
    method Whitespace(q: RegexQuantifier?)
      modifies this
      ensures buf == old(buf) + "\\s" + Suffix(q) && open == old(open)
    {
      Append("\\s", q);
    }

    /** Matches any single non-whitespace character. */
    method NonWhitespace(q: RegexQuantifier?)
      modifies this
      ensures buf == old(buf) + "\\S" + Suffix(q) && open == old(open)
    {
      Append("\\S", q);
    }

    /** Matches any decimal digit. */
    method Digit(q: RegexQuantifier?)
      modifies this
      ensures buf == old(buf) + "\\d" + Suffix(q) && open == old(open)
    {
      Append("\\d", q);
    }

    /** Matches any character that is not a decimal digit. */
    method NonDigit(q: RegexQuantifier?)
      modifies this
      ensures buf == old(buf) + "\\D" + Suffix(q) && open == old(open)
    {
      Append("\\D", q);
    }

    /** Matches any Roman letter. */
    method Letter(q: RegexQuantifier?)
      modifies this
      ensures buf == old(buf) + "[a-zA-Z]" + Suffix(q) && open == old(open)
    {
      Append("[a-zA-Z]", q);
    }

    /** Matches any character that is not a Roman letter. */
    method NonLetter(q: RegexQuantifier?)
      modifies this
      ensures buf == old(buf) + "[^a-zA-Z]" + Suffix(q) && open == old(open)
    {
      Append("[^a-zA-Z]", q);
    }

    /** Matches any upper-case Roman letter. */
    method UppercaseLetter(q: RegexQuantifier?)
      modifies this
      ensures buf == old(buf) + "[A-Z]" + Suffix(q) && open == old(open)
    {
      Append("[A-Z]", q);
    }

    /** Matches any lower-case Roman letter. */
    method LowercaseLetter(q: RegexQuantifier?)
      modifies this
      ensures buf == old(buf) + "[a-z]" + Suffix(q) && open == old(open)
    {
      Append("[a-z]", q);
    }

    /** Matches any Roman letter or decimal digit. */
    method LetterOrDigit(q: RegexQuantifier?)
      modifies this
      ensures buf == old(buf) + "[a-zA-Z0-9]" + Suffix(q) && open == old(open)
    {
      Append("[a-zA-Z0-9]", q);
    }

    /** Matches any character that is neither a Roman letter nor a decimal digit. */
    method NonLetterOrDigit(q: RegexQuantifier?)
      modifies this
      ensures buf == old(buf) + "[^a-zA-Z0-9]" + Suffix(q) && open == old(open)
    {
      Append("[^a-zA-Z0-9]", q);
    }

    /** Matches any hexadecimal digit. */
    method HexDigit(q: RegexQuantifier?)
      modifies this
      ensures buf == old(buf) + "[0-9A-Fa-f]" + Suffix(q) && open == old(open)
    {
      Append("[0-9A-Fa-f]", q);
    }

    /** Matches any upper-case hexadecimal digit. */
    method UppercaseHexDigit(q: RegexQuantifier?)
      modifies this
      ensures buf == old(buf) + "[0-9A-F]" + Suffix(q) && open == old(open)
    {
      Append("[0-9A-F]", q);
    }

    /** Matches any lower-case hexadecimal digit. */
    method LowercaseHexDigit(q: RegexQuantifier?)
      modifies this
      ensures buf == old(buf) + "[0-9a-f]" + Suffix(q) && open == old(open)
    {
      Append("[0-9a-f]", q);
    }

    /** Matches any character that is not a hexadecimal digit. */
    method NonHexDigit(q: RegexQuantifier?)
      modifies this
      ensures buf == old(buf) + "[^0-9A-Fa-f]" + Suffix(q) && open == old(open)
    {
      Append("[^0-9A-Fa-f]", q);
    }

    /** Matches any letter, digit or underscore. */
    method WordCharacter(q: RegexQuantifier?)
      modifies this
      ensures buf == old(buf) + "\\w" + Suffix(q) && open == old(open)
    {
      Append("\\w", q);
    }

    /** Matches any character that is not a letter, digit or underscore. */
    method NonWordCharacter(q: RegexQuantifier?)
      modifies this
      ensures buf == old(buf) + "\\W" + Suffix(q) && open == old(open)
    {
      Append("\\W", q);
    }

    /** A character class of the given characters, escaped for use inside a class. */
    method AnyCharacterFrom(characters: string, q: RegexQuantifier?)
      modifies this
      ensures buf == old(buf) + "[" + MakeSafeForCharacterClass(characters) + "]" + Suffix(q)
      ensures open == old(open)
    {
      Append("[" + MakeSafeForCharacterClass(characters) + "]", q);
    }

    /** A negated character class of the given characters. */
    method AnyCharacterExcept(characters: string, q: RegexQuantifier?)
      modifies this
      ensures buf == old(buf) + "[^" + MakeSafeForCharacterClass(characters) + "]" + Suffix(q)
      ensures open == old(open)
    {
      Append("[^" + MakeSafeForCharacterClass(characters) + "]", q);
    }

    /**
     * Alternatives. None: nothing changes. One: the escaped string, not
     * wrapped, then the quantifier. Several: escaped and joined with '|' inside
     * a non-capturing group, passed to regexText with the quantifier (so a
     * quantifier wraps them once more) and the group ended with the quantifier
     * again.
     */
    method AnyOf(strings: seq<string>, q: RegexQuantifier?)
      modifies this
      ensures open == old(open)
      ensures |strings| == 0 ==> buf == old(buf)
      ensures |strings| == 1 ==> buf == old(buf) + MakeSafeForRegex(strings[0]) + Suffix(q)
      ensures |strings| >= 2 ==>
        buf == old(buf) + "(?:" + Quantified(Join("|", EscapeAll(strings)), q) + ")" + Suffix(q)
    {
      if |strings| == 0 {
      } else if |strings| == 1 {
        Append(MakeSafeForRegex(strings[0]), q);
      } else {
        var joined := Join("|", EscapeAll(strings));
        StartNonCapturingGroup();
        RegexText(joined, q);
        var ended := EndGroup(q);
        assert ended == Pass;
      }
    }

    /** Zero-width anchor: the start of the string. */
    method StartOfString()
      modifies this
      ensures buf == old(buf) + "^" && open == old(open)
    {
      Append("^", null);
    }

    /** Zero-width anchor: the end of the string. */
    method EndOfString()
      modifies this
      ensures buf == old(buf) + "$" && open == old(open)
    {
      Append("$", null);
    }

    /** Zero-width anchor: a word boundary. */
    method WordBoundary()
      modifies this
      ensures buf == old(buf) + "\\b" && open == old(open)
    {
      Append("\\b", null);
    }

    /** Opens a capturing group. */
    method StartGroup()
      modifies this
      ensures open == old(open) + 1 && buf == old(buf) + "("
    {
      open := open + 1;
      Append("(", null);
    }

    /** Opens a non-capturing group. */
    method StartNonCapturingGroup()
      modifies this
      ensures open == old(open) + 1 && buf == old(buf) + "(?:"
    {
      open := open + 1;
      Append("(?:", null);
    }

    /** Opens a named capturing group; the name goes in as given, unchecked. */
    method StartNamedGroup(name: string)
      modifies this
      ensures open == old(open) + 1 && buf == old(buf) + "(?<" + name + ">"
    {
      open := open + 1;
      Append("(?<" + name + ">", null);
    }

    /** Closes the innermost open group, or fails, changing nothing, when none is open. */
    method EndGroup(q: RegexQuantifier?) returns (r: Outcome<RegexBuilderException>)
      modifies this
      ensures old(open) == 0 ==>
        r == Fail(RegexBuilderException(EndGroupMessage, old(buf))) && buf == old(buf) && open == 0
      ensures old(open) > 0 ==> r == Pass && open == old(open) - 1 && buf == old(buf) + ")" + Suffix(q)
    {
      if open == 0 {
        r := Fail(RegexBuilderException(EndGroupMessage, buf));
        return;
      }
      open := open - 1;
      Append(")", q);
      r := Pass;
    }

    /** Adds text, then the quantifier's text; the counter is untouched. */
    method Append(text: string, q: RegexQuantifier?)
      modifies this
      ensures buf == old(buf) + text + Suffix(q) && open == old(open)
    {
      buf := buf + text;
      AddQuantifier(q);
    }

    method AddQuantifier(q: RegexQuantifier?)
      modifies this
      ensures buf == old(buf) + Suffix(q) && open == old(open)
    {
      if q != null {
        var s := q.ToString();
        buf := buf + s;
      }
    }
  }
}
