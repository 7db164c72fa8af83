/**
 * The builder's two escapers (RegexBuilder.makeSafeForRegex and
 * RegexBuilder.makeSafeForCharacterClass), the join used by anyOf, and the
 * reference definitions they are proved against.
 */
module Escaping {
  import opened Wrappers

  /** Characters that makeSafeForRegex escapes, in the order it escapes them; '-' is not among them. */
  const MetaChars: string := "\\?.+*^$()[]{}|"

  /**
   * Kotlin's `String.replace(oldValue, newValue)` for a one-character oldValue:
   * every occurrence of target, scanned left to right, becomes replacement.
   */
  function Replace(s: string, target: char, replacement: string): (r: string)
  {
    if s == [] then []
    else (if s[0] == target then replacement else [s[0]]) + Replace(s[1..], target, replacement)
  }

  /** The per-character escape map: each character of special gets a backslash in front. */
  function EscapeWith(s: string, special: seq<char>): string {
    if s == [] then []
    else (if s[0] in special then ['\\', s[0]] else [s[0]]) + EscapeWith(s[1..], special)
  }

  /** Reference definition of literal escaping: a per-character map over MetaChars. */
  function EscapeLiteral(s: string): string {
    EscapeWith(s, MetaChars)
  }

  /**
   * Replace leaves text without the target as it is, and leaves no target
   * behind unless the replacement brings one in.
   */
  lemma {:induction false} ReplaceEvery(s: string, target: char, replacement: string)
    ensures target !in s ==> Replace(s, target, replacement) == s
    ensures target !in replacement ==> target !in Replace(s, target, replacement)
  {
    if s != [] {
      ReplaceEvery(s[1..], target, replacement);
      assert [s[0]] + s[1..] == s;
    }
  }

  lemma {:induction false} ReplaceAppend(a: string, b: string, target: char, replacement: string)
    ensures Replace(a + b, target, replacement) == Replace(a, target, replacement) + Replace(b, target, replacement)
  {
    if a != [] {
      assert (a + b)[1..] == a[1..] + b;
      ReplaceAppend(a[1..], b, target, replacement);
    } else {
      assert a + b == b;
    }
  }

  lemma {:induction false} EscapeWithNothing(s: string)
    ensures EscapeWith(s, []) == s
  {
    if s != [] {
      EscapeWithNothing(s[1..]);
    }
  }

  /** Text with none of the special characters passes through the escape unchanged. */
  lemma {:induction false} EscapeWithUnchanged(s: string, special: seq<char>)
    requires forall k :: 0 <= k < |s| ==> s[k] !in special
    ensures EscapeWith(s, special) == s
  {
    if s != [] {
      EscapeWithUnchanged(s[1..], special);
      assert [s[0]] + s[1..] == s;
    }
  }

  /**
   * One replace step of the chain extends the escaped set by m, provided m has
   * not been escaped yet and the backslash, if it is m, comes first: the
   * backslashes inserted by earlier steps are then never escaped again.
   */
  lemma {:induction false} ReplaceExtendsEscape(s: string, done: seq<char>, m: char)
    requires m !in done
    requires m == '\\' ==> done == []
    ensures Replace(EscapeWith(s, done), m, ['\\', m]) == EscapeWith(s, done + [m])
  {
    if s != [] {
      var c := s[0];
      var head := if c in done then ['\\', c] else [c];
      var rest := EscapeWith(s[1..], done);
      assert EscapeWith(s, done) == head + rest;
      ReplaceAppend(head, rest, m, ['\\', m]);
      ReplaceExtendsEscape(s[1..], done, m);
      if c in done {
        assert Replace(head, m, ['\\', m]) == head by {
          assert head == ['\\'] + [c];
          ReplaceAppend(['\\'], [c], m, ['\\', m]);
        }
      }
    }
  }

  /** Replace calls 1 to 3 of makeSafeForRegex escape metacharacters 1 to 3 as well. */
  lemma ReplaceSteps1To3(s: string, t: string)
    requires t == EscapeWith(s, MetaChars[..0])
    ensures Replace(Replace(Replace(t, '\\', "\\\\"), '?', "\\?"), '.', "\\.") == EscapeWith(s, MetaChars[..3])
  {
    var t1 := Replace(t, '\\', "\\\\");
    assert t1 == EscapeWith(s, MetaChars[..1]) by {
      ReplaceExtendsEscape(s, MetaChars[..0], '\\');
      assert MetaChars[..0] + ['\\'] == MetaChars[..1];
    }
    var t2 := Replace(t1, '?', "\\?");
    assert t2 == EscapeWith(s, MetaChars[..2]) by {
      ReplaceExtendsEscape(s, MetaChars[..1], '?');
      assert MetaChars[..1] + ['?'] == MetaChars[..2];
    }
    var t3 := Replace(t2, '.', "\\.");
    assert t3 == EscapeWith(s, MetaChars[..3]) by {
      ReplaceExtendsEscape(s, MetaChars[..2], '.');
      assert MetaChars[..2] + ['.'] == MetaChars[..3];
    }
  }

  /** Replace calls 4 to 7 of makeSafeForRegex escape metacharacters 4 to 7 as well. */
  lemma ReplaceSteps4To7(s: string, t: string)
    requires t == EscapeWith(s, MetaChars[..3])
    ensures Replace(Replace(Replace(Replace(t, '+', "\\+"), '*', "\\*"), '^', "\\^"), '$', "\\$") == EscapeWith(s, MetaChars[..7])
  {
    var t4 := Replace(t, '+', "\\+");
    assert t4 == EscapeWith(s, MetaChars[..4]) by {
      ReplaceExtendsEscape(s, MetaChars[..3], '+');
      assert MetaChars[..3] + ['+'] == MetaChars[..4];
    }
    var t5 := Replace(t4, '*', "\\*");
    assert t5 == EscapeWith(s, MetaChars[..5]) by {
      ReplaceExtendsEscape(s, MetaChars[..4], '*');
      assert MetaChars[..4] + ['*'] == MetaChars[..5];
    }
    var t6 := Replace(t5, '^', "\\^");
    assert t6 == EscapeWith(s, MetaChars[..6]) by {
      ReplaceExtendsEscape(s, MetaChars[..5], '^');
      assert MetaChars[..5] + ['^'] == MetaChars[..6];
    }
    var t7 := Replace(t6, '$', "\\$");
    assert t7 == EscapeWith(s, MetaChars[..7]) by {
      ReplaceExtendsEscape(s, MetaChars[..6], '$');
      assert MetaChars[..6] + ['$'] == MetaChars[..7];
    }
  }

  /** Replace calls 8 to 11 of makeSafeForRegex escape metacharacters 8 to 11 as well. */
  lemma ReplaceSteps8To11(s: string, t: string)
    requires t == EscapeWith(s, MetaChars[..7])
    ensures Replace(Replace(Replace(Replace(t, '(', "\\("), ')', "\\)"), '[', "\\["), ']', "\\]") == EscapeWith(s, MetaChars[..11])
  {
    var t8 := Replace(t, '(', "\\(");
    assert t8 == EscapeWith(s, MetaChars[..8]) by {
      ReplaceExtendsEscape(s, MetaChars[..7], '(');
      assert MetaChars[..7] + ['('] == MetaChars[..8];
    }
    var t9 := Replace(t8, ')', "\\)");
    assert t9 == EscapeWith(s, MetaChars[..9]) by {
      ReplaceExtendsEscape(s, MetaChars[..8], ')');
      assert MetaChars[..8] + [')'] == MetaChars[..9];
    }
    var t10 := Replace(t9, '[', "\\[");
    assert t10 == EscapeWith(s, MetaChars[..10]) by {
      ReplaceExtendsEscape(s, MetaChars[..9], '[');
      assert MetaChars[..9] + ['['] == MetaChars[..10];
    }
    var t11 := Replace(t10, ']', "\\]");
    assert t11 == EscapeWith(s, MetaChars[..11]) by {
      ReplaceExtendsEscape(s, MetaChars[..10], ']');
      assert MetaChars[..10] + [']'] == MetaChars[..11];
    }
  }

  /** Replace calls 12 to 14 of makeSafeForRegex escape metacharacters 12 to 14 as well. */
  lemma ReplaceSteps12To14(s: string, t: string)
    requires t == EscapeWith(s, MetaChars[..11])
    ensures Replace(Replace(Replace(t, '{', "\\{"), '}', "\\}"), '|', "\\|") == EscapeWith(s, MetaChars[..14])
  {
    var t12 := Replace(t, '{', "\\{");
    assert t12 == EscapeWith(s, MetaChars[..12]) by {
      ReplaceExtendsEscape(s, MetaChars[..11], '{');
      assert MetaChars[..11] + ['{'] == MetaChars[..12];
    }
    var t13 := Replace(t12, '}', "\\}");
    assert t13 == EscapeWith(s, MetaChars[..13]) by {
      ReplaceExtendsEscape(s, MetaChars[..12], '}');
      assert MetaChars[..12] + ['}'] == MetaChars[..13];
    }
    var t14 := Replace(t13, '|', "\\|");
    assert t14 == EscapeWith(s, MetaChars[..14]) by {
      ReplaceExtendsEscape(s, MetaChars[..13], '|');
      assert MetaChars[..13] + ['|'] == MetaChars[..14];
    }
  }

  /**
   * makeSafeForRegex: one replace per metacharacter, the backslash first. The
   * chain equals the single per-character map EscapeLiteral, for every input.
   */
  function MakeSafeForRegex(s: string): (r: string)
    ensures r == EscapeLiteral(s)
  {
    var t3 := Replace(Replace(Replace(s, '\\', "\\\\"), '?', "\\?"), '.', "\\.");
    var t7 := Replace(Replace(Replace(Replace(t3, '+', "\\+"), '*', "\\*"), '^', "\\^"), '$', "\\$");
    var t11 := Replace(Replace(Replace(Replace(t7, '(', "\\("), ')', "\\)"), '[', "\\["), ']', "\\]");
    var r := Replace(Replace(Replace(t11, '{', "\\{"), '}', "\\}"), '|', "\\|");
    assert s == EscapeWith(s, MetaChars[..0]) by {
      EscapeWithNothing(s);
      assert MetaChars[..0] == [];
    }
    ReplaceSteps1To3(s, s);
    ReplaceSteps4To7(s, t3);
    ReplaceSteps8To11(s, t7);
    ReplaceSteps12To14(s, t11);
    assert MetaChars[..14] == MetaChars;
    r
  }

  /**
   * makeSafeForCharacterClass: ']' becomes "\]", then a leading '^' gets one
   * backslash in front. This is the per-character map that escapes only ']',
   * preceded by one backslash exactly when the input starts with '^'; a '^'
   * elsewhere, '-', '[' and '\' are copied unchanged.
   */
  function MakeSafeForCharacterClass(text: string): (r: string)
    ensures r == (if |text| > 0 && text[0] == '^' then "\\" else "") + EscapeWith(text, "]")
  {
    var safeText := Replace(text, ']', "\\]");
    assert safeText == EscapeWith(text, "]") by {
      EscapeWithNothing(text);
      ReplaceExtendsEscape(text, [], ']');
      assert [] + [']'] == "]";
    }
    if |safeText| > 0 && safeText[0] == '^' then "\\" + safeText else safeText
  }

  /** Every character of special in r directly follows a backslash. */
  predicate BackslashBeforeEach(r: string, special: seq<char>) {
    forall i :: 0 <= i < |r| && r[i] in special ==> 0 < i && r[i - 1] == '\\'
  }

  /** In a string escaped with special characters other than '\', each special character follows a backslash. */
  lemma {:induction false} EscapedFollowBackslash(s: string, special: seq<char>)
    requires '\\' !in special
    ensures BackslashBeforeEach(EscapeWith(s, special), special)
  {
    if s != [] {
      var head := if s[0] in special then ['\\', s[0]] else [s[0]];
      var tail := EscapeWith(s[1..], special);
      var r := EscapeWith(s, special);
      EscapedFollowBackslash(s[1..], special);
      assert BackslashBeforeEach(tail, special);
      assert r == head + tail;
      forall i | 0 <= i < |r| && r[i] in special
        ensures 0 < i && r[i - 1] == '\\'
      {
        if i < |head| {
          assert r[i] == head[i];
          assert r[0] == head[0];
        } else {
          var j := i - |head|;
          assert r[i] == tail[j];
          assert 0 < j && tail[j - 1] == '\\';
          assert r[i - 1] == tail[j - 1];
        }
      }
    }
  }

  /** Every backslash in r directly precedes a character of special. */
  predicate BackslashOnlyBefore(r: string, special: seq<char>) {
    forall i :: 0 <= i < |r| && r[i] == '\\' ==> i + 1 < |r| && r[i + 1] in special
  }

  /** Escaping text that holds no backslash adds backslashes only in front of special characters. */
  lemma {:induction false} EscapedBackslashesPrecede(s: string, special: seq<char>)
    requires '\\' !in s && '\\' !in special
    ensures BackslashOnlyBefore(EscapeWith(s, special), special)
  {
    if s != [] {
      var head := if s[0] in special then ['\\', s[0]] else [s[0]];
      var tail := EscapeWith(s[1..], special);
      var r := EscapeWith(s, special);
      EscapedBackslashesPrecede(s[1..], special);
      assert r == head + tail;
      forall i | 0 <= i < |r| && r[i] == '\\'
        ensures i + 1 < |r| && r[i + 1] in special
      {
        if i < |head| {
          assert r[i] == head[i];
          assert i == 0 && |head| == 2 && r[1] == head[1];
        } else {
          assert r[i] == tail[i - |head|];
          assert r[i + 1] == tail[i + 1 - |head|];
        }
      }
    }
  }

  /** No ']' in r follows two backslashes (an escaped backslash, after which the ']' would be bare). */
  predicate SingleBackslashBeforeBrackets(r: string) {
    forall i :: 1 < i < |r| && r[i] == ']' ==> r[i - 2] != '\\'
  }

  /**
   * Character-class escaping puts a backslash before every ']' and before a
   * leading '^'. When the text holds no backslash of its own, each such ']'
   * follows exactly one backslash, so it cannot close the class early.
   */
  lemma CharacterClassEscapesBrackets(text: string)
    ensures BackslashBeforeEach(MakeSafeForCharacterClass(text), "]")
    ensures |text| > 0 && text[0] == '^' ==>
      |MakeSafeForCharacterClass(text)| >= 2
      && MakeSafeForCharacterClass(text)[0] == '\\' && MakeSafeForCharacterClass(text)[1] == '^'
    ensures '\\' !in text ==> SingleBackslashBeforeBrackets(MakeSafeForCharacterClass(text))
  {
    EscapedFollowBackslash(text, "]");
    var e := EscapeWith(text, "]");
    var r := MakeSafeForCharacterClass(text);
    var p := if |text| > 0 && text[0] == '^' then "\\" else "";
    assert r == p + e;
    assert BackslashBeforeEach(e, "]");
    forall i | 0 <= i < |r| && r[i] in "]"
      ensures 0 < i && r[i - 1] == '\\'
    {
      assert r[i] == e[i - |p|];
      if i - |p| > 0 {
        assert r[i - 1] == e[i - |p| - 1];
      }
    }
    if |text| > 0 && text[0] == '^' {
      assert e[0] == '^';
    }
    if '\\' !in text {
      EscapedBackslashesPrecede(text, "]");
      forall i | 1 < i < |r| && r[i] == ']'
        ensures r[i - 2] != '\\'
      {
        assert r[i] in "]";
        assert r[i - 1] == '\\';
        if i - 2 >= |p| {
          assert r[i - 2] == e[i - 2 - |p|];
          assert r[i - 1] == e[i - 1 - |p|];
        }
      }
    }
  }

  /**
   * makeSafeForCharacterClass does not escape the backslash: the text "\]"
   * becomes "\\]", in which the two backslashes form an escaped backslash and
   * the ']' closes the class.
   */
  lemma CharacterClassKeepsBackslash()
    ensures MakeSafeForCharacterClass("\\]") == "\\\\]"
  {
    EscapeWithSingle(']', "]");
    EscapeWithFirst("\\]", "]");
    assert "\\]"[1..] == "]";
    EscapeWithSingle('\\', "]");
  }

  /** Kotlin's joinToString(sep): the parts with sep between consecutive ones. */
  function Join(sep: string, parts: seq<string>): string {
    if |parts| == 0 then ""
    else if |parts| == 1 then parts[0]
    else parts[0] + sep + Join(sep, parts[1..])
  }

  /** A part put in front of one or more parts: that part, the separator, then the others joined. */
  lemma JoinCons(sep: string, first: string, parts: seq<string>)
    requires |parts| >= 1
    ensures Join(sep, [first] + parts) == first + (sep + Join(sep, parts))
  {
    assert ([first] + parts)[1..] == parts;
  }

  /** A join starts with its first part and ends with its last one. */
  lemma {:induction false} JoinEnds(sep: string, parts: seq<string>)
    requires |parts| >= 1
    ensures parts[0] <= Join(sep, parts)
    ensures |parts[|parts| - 1]| <= |Join(sep, parts)|
    ensures Join(sep, parts)[|Join(sep, parts)| - |parts[|parts| - 1]|..] == parts[|parts| - 1]
  {
    if |parts| >= 2 {
      JoinEnds(sep, parts[1..]);
      var j := Join(sep, parts);
      var t := Join(sep, parts[1..]);
      var last := parts[|parts| - 1];
      assert j == parts[0] + sep + t;
      assert parts[1..][|parts| - 2] == last;
      assert j[|j| - |last|..] == t[|t| - |last|..];
    }
  }

  /** Each string made safe for a regex, in order (the transform anyOf passes to joinToString). */
  function EscapeAll(strings: seq<string>): (r: seq<string>)
    ensures |r| == |strings|
    ensures forall i :: 0 <= i < |strings| ==> r[i] == MakeSafeForRegex(strings[i])
  {
    if strings == [] then [] else [MakeSafeForRegex(strings[0])] + EscapeAll(strings[1..])
  }

  /** Adds w at the front of the first alternative. */
  function PrependToFirst(w: string, alts: seq<string>): (r: seq<string>)
    requires |alts| >= 1
  {
    [w + alts[0]] + alts[1..]
  }

  lemma PrependTwice(c: char, w: string, alts: seq<string>)
    requires |alts| >= 1
    ensures PrependToFirst([c], PrependToFirst(w, alts)) == PrependToFirst([c] + w, alts)
  {
    var inner := PrependToFirst(w, alts);
    assert inner[0] == w + alts[0] && inner[1..] == alts[1..];
    assert [c] + (w + alts[0]) == ([c] + w) + alts[0];
  }

  /**
   * Reads regex text built only from plain characters, escaped metacharacters
   * and '|': the literal alternatives it matches, in order. None when the text
   * holds any other regex syntax (a bare metacharacter, an escape of a plain
   * character such as "\d", a trailing lone backslash).
   */
  function ReadAlternatives(r: string): (alts: Option<seq<string>>)
    ensures alts.Some? ==> |alts.value| >= 1
  {
    if r == [] then Some([[]])
    else if r[0] == '\\' then
      if |r| < 2 || r[1] !in MetaChars then None
      else match ReadAlternatives(r[2..])
        case None => None
        case Some(rest) => Some(PrependToFirst([r[1]], rest))
    else if r[0] == '|' then
      match ReadAlternatives(r[1..])
      case None => None
      case Some(rest) => Some([[]] + rest)
    else if r[0] in MetaChars then None
    else match ReadAlternatives(r[1..])
      case None => None
      case Some(rest) => Some(PrependToFirst([r[0]], rest))
  }

  lemma ReadEscapePair(c: char, x: string, alts: seq<string>)
    requires c in MetaChars && ReadAlternatives(x) == Some(alts)
    ensures ReadAlternatives(['\\', c] + x) == Some(PrependToFirst([c], alts))
  {
    assert (['\\', c] + x)[2..] == x;
  }

  lemma ReadPlain(c: char, x: string, alts: seq<string>)
    requires c !in MetaChars && ReadAlternatives(x) == Some(alts)
    ensures ReadAlternatives([c] + x) == Some(PrependToFirst([c], alts))
  {
    assert ([c] + x)[1..] == x;
  }

  lemma EscapeWithSingle(c: char, special: seq<char>)
    ensures EscapeWith([c], special) == if c in special then ['\\', c] else [c]
  {
    assert [c][1..] == [];
  }

  lemma EscapeWithFirst(s: string, special: seq<char>)
    requires s != []
    ensures EscapeWith(s, special) == EscapeWith([s[0]], special) + EscapeWith(s[1..], special)
  {
    EscapeWithSingle(s[0], special);
  }

  lemma ReadEscapedChar(c: char, x: string, alts: seq<string>)
    requires ReadAlternatives(x) == Some(alts)
    ensures ReadAlternatives(EscapeLiteral([c]) + x) == Some(PrependToFirst([c], alts))
  {
    EscapeWithSingle(c, MetaChars);
    if c in MetaChars {
      ReadEscapePair(c, x, alts);
    } else {
      ReadPlain(c, x, alts);
    }
  }

  lemma EscapeLiteralCons(c: char, w: string)
    ensures EscapeLiteral([c] + w) == EscapeLiteral([c]) + EscapeLiteral(w)
  {
    EscapeWithFirst([c] + w, MetaChars);
    assert ([c] + w)[1..] == w;
  }

  lemma ReadEscapedCons(c: char, w: string, rest: string, alts: seq<string>)
    requires |alts| >= 1
    requires ReadAlternatives(EscapeLiteral(w) + rest) == Some(PrependToFirst(w, alts))
    ensures ReadAlternatives(EscapeLiteral([c] + w) + rest) == Some(PrependToFirst([c] + w, alts))
  {
    var x := EscapeLiteral(w) + rest;
    var y := EscapeLiteral([c] + w) + rest;
    assert y == EscapeLiteral([c]) + x by {
      EscapeLiteralCons(c, w);
    }
    assert ReadAlternatives(y) == Some(PrependToFirst([c], PrependToFirst(w, alts))) by {
      ReadEscapedChar(c, x, PrependToFirst(w, alts));
    }
    PrependTwice(c, w, alts);
  }

  lemma {:induction false} ReadEscapedPrefix(w: string, rest: string, alts: seq<string>)
    requires ReadAlternatives(rest) == Some(alts)
    ensures |alts| >= 1 && ReadAlternatives(EscapeLiteral(w) + rest) == Some(PrependToFirst(w, alts))
  {
    if w == [] {
      assert EscapeLiteral(w) + rest == rest;
      assert PrependToFirst(w, alts) == alts by {
        assert w + alts[0] == alts[0];
        assert [alts[0]] + alts[1..] == alts;
      }
    } else {
      ReadEscapedPrefix(w[1..], rest, alts);
      ReadEscapedCons(w[0], w[1..], rest, alts);
      assert [w[0]] + w[1..] == w;
    }
  }

  /**
   * Escaped text never introduces regex syntax: it reads back as exactly one
   * literal alternative, the original text.
   */
  lemma MakeSafeForRegexReadsBack(s: string)
    ensures ReadAlternatives(MakeSafeForRegex(s)) == Some([s])
  {
    assert ReadAlternatives([]) == Some([[]]);
    ReadEscapedPrefix(s, [], [[]]);
    assert EscapeLiteral(s) + [] == EscapeLiteral(s);
    assert PrependToFirst(s, [[]]) == [s] by {
      assert s + [] == s;
    }
  }

  lemma ReadBarPrefix(rest: string, alts: seq<string>)
    requires ReadAlternatives(rest) == Some(alts)
    ensures ReadAlternatives("|" + rest) == Some([[]] + alts)
  {
    assert ("|" + rest)[1..] == rest;
  }

  lemma PrependToEmptyFirst(ss: seq<string>)
    requires |ss| >= 1
    ensures PrependToFirst(ss[0], [[]] + ss[1..]) == ss
  {
    assert ([[]] + ss[1..])[1..] == ss[1..];
    assert ss[0] + [] == ss[0];
    assert [ss[0]] + ss[1..] == ss;
  }

  /** One step of JoinedAlternativesReadBack: an escaped string, then '|' and the rest. */
  lemma ReadEscapedThenBar(first: string, rest: string, tail: seq<string>)
    requires ReadAlternatives(rest) == Some(tail)
    ensures ReadAlternatives(EscapeLiteral(first) + ("|" + rest)) == Some(PrependToFirst(first, [[]] + tail))
  {
    ReadBarPrefix(rest, tail);
    ReadEscapedPrefix(first, "|" + rest, [[]] + tail);
  }

  /**
   * The alternation anyOf builds from two or more strings, escaped and joined
   * with '|', reads back as exactly those strings: no string can merge with
   * its neighbours or split into more alternatives.
   */
  lemma {:induction false} JoinedAlternativesReadBack(strings: seq<string>)
    requires |strings| >= 1
    ensures ReadAlternatives(Join("|", EscapeAll(strings))) == Some(strings)
  {
    if |strings| == 1 {
      MakeSafeForRegexReadsBack(strings[0]);
      assert [strings[0]] == strings;
    } else {
      var e := EscapeAll(strings);
      assert e == [EscapeLiteral(strings[0])] + EscapeAll(strings[1..]);
      JoinedAlternativesReadBack(strings[1..]);
      JoinCons("|", EscapeLiteral(strings[0]), EscapeAll(strings[1..]));
      ReadEscapedThenBar(strings[0], Join("|", EscapeAll(strings[1..])), strings[1..]);
      PrependToEmptyFirst(strings);
    }
  }
}
