/**
 * RegexQuantifier and its subclass RegexGreedyQuantifier: repetition
 * suffixes held as mutable text, the companion factories that render them,
 * and ParseQuantifier, the regex-syntax reading of a suffix that states what
 * each rendered text means.
 */
module Quantifiers {
  import opened Wrappers
  import opened Decimal

  /**
   * A quantifier object. regexString is the stored suffix text; greedyKind
   * records that the object was created as a RegexGreedyQuantifier, the only
   * kind that offers ButAsFewAsPossible.
   */
  class RegexQuantifier {
    var regexString: string
    const greedyKind: bool

    /** The base-class constructor: a quantifier that cannot be made lazy. */
    constructor Plain(regexString: string)
      ensures this.regexString == regexString && !greedyKind
    {
      this.regexString := regexString;
      greedyKind := false;
    }

    /** RegexGreedyQuantifier's constructor passes its text unchanged to the base class. */
    constructor Greedy(regexString: string)
      ensures this.regexString == regexString && greedyKind
    {
      this.regexString := regexString;
      greedyKind := true;
    }

    /** toString() gives back exactly the text currently stored. */
    method ToString() returns (s: string)
      ensures s == regexString
    {
      s := regexString;
    }

    /** Appends one '?' to the stored text, in place, and returns the same object. */
    method MakeNonGreedy() returns (r: RegexQuantifier)
      modifies this
      ensures r == this
      ensures regexString == old(regexString) + "?"
    {
      regexString := regexString + "?";
      r := this;
    }

    /**
     * The lazy form of a greedy quantifier: not a copy but this very object,
     * changed in place, so every other reference to it sees the '?' too.
     */
    method ButAsFewAsPossible() returns (r: RegexQuantifier)
      requires greedyKind
      modifies this
      ensures r == this
      ensures regexString == old(regexString) + "?"
    {
      r := MakeNonGreedy();
    }
  }

  // Rendered suffix texts of the counted quantifiers. No count is validated:
  // each contract says what the text means to the regex engine, and that it
  // is not a quantifier at all when a bound is negative or the minimum
  // exceeds the maximum.

  /** The text of exactly(times): "{times}". */
  function ExactlyText(times: int): (r: string)
    ensures ParseQuantifier(r) == if times >= 0 then Some(Repetition(times, Some(times), false)) else None
  {
    var d := IntToString(times);
    var r := "{" + d + "}";
    assert r[1..|r| - 1] == d;
    NoCommaInNumeral(times);
    ParseNatOfIntToString(times);
    r
  }

  /** The text of atLeast(minimum): "{minimum,}". */
  function AtLeastText(minimum: int): (r: string)
    ensures ParseQuantifier(r) == if minimum >= 0 then Some(Repetition(minimum, None, false)) else None
  {
    var d := IntToString(minimum);
    var r := "{" + d + ",}";
    assert r[1..|r| - 1] == d + [','] + [];
    NoCommaInNumeral(minimum);
    IndexOfFirst(d, ',', []);
    assert (d + [','] + [])[..|d|] == d;
    ParseNatOfIntToString(minimum);
    r
  }

  /** The text of noMoreThan(maximum): "{0,maximum}". */
  function NoMoreThanText(maximum: int): (r: string)
    ensures ParseQuantifier(r) == if maximum >= 0 then Some(Repetition(0, Some(maximum), false)) else None
  {
    var d := IntToString(maximum);
    var r := "{0," + d + "}";
    var body := r[1..|r| - 1];
    assert body == "0" + [','] + d;
    IndexOfFirst("0", ',', d);
    assert body[..1] == "0" && body[2..] == d;
    assert ParseNat("0") == Some(0);
    ParseNatOfIntToString(maximum);
    r
  }

  /** The text of between(minimum, maximum): "{minimum,maximum}". */
  function BetweenText(minimum: int, maximum: int): (r: string)
    ensures ParseQuantifier(r)
         == if 0 <= minimum <= maximum then Some(Repetition(minimum, Some(maximum), false)) else None
  {
    var da, db := IntToString(minimum), IntToString(maximum);
    var r := "{" + da + "," + db + "}";
    assert r[1..|r| - 1] == da + [','] + db;
    BoundsPairMeaning(minimum, maximum);
    r
  }

  /** Two rendered bounds separated by a comma read as that range, when it is one. */
  lemma BoundsPairMeaning(a: int, b: int)
    ensures ParseBounds(IntToString(a) + [','] + IntToString(b))
         == if 0 <= a <= b then Some(Repetition(a, Some(b), false)) else None
  {
    var da, db := IntToString(a), IntToString(b);
    var body := da + [','] + db;
    NoCommaInNumeral(a);
    IndexOfFirst(da, ',', db);
    assert body[..|da|] == da && body[|da| + 1..] == db;
    ParseNatOfIntToString(a);
    ParseNatOfIntToString(b);
  }

  // The companion factories. Each creates a fresh object.

  method ZeroOrMore() returns (q: RegexQuantifier)
    ensures fresh(q) && q.greedyKind && q.regexString == "*"
  {
    q := new RegexQuantifier.Greedy("*");
  }

  method OneOrMore() returns (q: RegexQuantifier)
    ensures fresh(q) && q.greedyKind && q.regexString == "+"
  {
    q := new RegexQuantifier.Greedy("+");
  }

  method NoneOrOne() returns (q: RegexQuantifier)
    ensures fresh(q) && q.greedyKind && q.regexString == "?"
  {
    q := new RegexQuantifier.Greedy("?");
  }

  /** An exact count has no lazy form: the result is a plain quantifier. */
  method Exactly(times: Int32) returns (q: RegexQuantifier)
    ensures fresh(q) && !q.greedyKind && q.regexString == ExactlyText(times as int)
  {
    q := new RegexQuantifier.Plain(ExactlyText(times as int));
  }

  method AtLeast(minimum: Int32) returns (q: RegexQuantifier)
    ensures fresh(q) && q.greedyKind && q.regexString == AtLeastText(minimum as int)
  {
    q := new RegexQuantifier.Greedy(AtLeastText(minimum as int));
  }

  method NoMoreThan(maximum: Int32) returns (q: RegexQuantifier)
    ensures fresh(q) && q.greedyKind && q.regexString == NoMoreThanText(maximum as int)
  {
    q := new RegexQuantifier.Greedy(NoMoreThanText(maximum as int));
  }

  method Between(minimum: Int32, maximum: Int32) returns (q: RegexQuantifier)
    ensures fresh(q) && q.greedyKind && q.regexString == BetweenText(minimum as int, maximum as int)
  {
    q := new RegexQuantifier.Greedy(BetweenText(minimum as int, maximum as int));
  }

  // What a suffix means to java.util.regex, the engine behind Kotlin's Regex.

  /** A repetition: at least min times, at most max times (None: unbounded), lazily or greedily. */
  datatype Repetition = Repetition(min: int, max: Option<int>, lazy: bool)

  /** Position of the first c in s. */
  function IndexOf(s: string, c: char): (r: Option<nat>)
    ensures r.Some? ==> r.value < |s| && s[r.value] == c && c !in s[..r.value]
    ensures r.None? ==> c !in s
  {
    if s == [] then None
    else if s[0] == c then Some(0)
    else match IndexOf(s[1..], c)
      case None => None
      case Some(i) => Some(i + 1)
  }

  /**
   * Reads the inside of a brace quantifier: "n", "n," or "n,m", each bound an
   * unsigned numeral and, in "n,m", n no greater than m. java.util.regex
   * rejects anything else after '{' as an illegal repetition.
   */
  function ParseBounds(body: string): Option<Repetition> {
    match IndexOf(body, ',')
    case None =>
      (match ParseNat(body)
       case None => None
       case Some(n) => Some(Repetition(n, Some(n), false)))
    case Some(i) =>
      (match ParseNat(body[..i])
       case None => None
       case Some(lo) =>
         if i + 1 == |body| then Some(Repetition(lo, None, false))
         else match ParseNat(body[i + 1..])
           case None => None
           case Some(hi) => if lo <= hi then Some(Repetition(lo, Some(hi), false)) else None)
  }

  /** Reads a greedy quantifier: "*", "+", "?" or a brace form. */
  function ParseGreedy(s: string): Option<Repetition> {
    if s == "*" then Some(Repetition(0, None, false))
    else if s == "+" then Some(Repetition(1, None, false))
    else if s == "?" then Some(Repetition(0, Some(1), false))
    else if |s| >= 2 && s[0] == '{' && s[|s| - 1] == '}' then ParseBounds(s[1..|s| - 1])
    else None
  }

  /** Reads a quantifier suffix; a trailing '?' after a greedy quantifier makes it lazy. */
  function ParseQuantifier(s: string): Option<Repetition> {
    if |s| >= 2 && s[|s| - 1] == '?' then
      match ParseGreedy(s[..|s| - 1])
      case None => None
      case Some(r) => Some(r.(lazy := true))
    else ParseGreedy(s)
  }

  lemma {:induction false} IndexOfFirst(a: string, c: char, b: string)
    requires c !in a
    ensures IndexOf(a + [c] + b, c) == Some(|a|)
  {
    if a != [] {
      assert (a + [c] + b)[1..] == a[1..] + [c] + b;
      IndexOfFirst(a[1..], c, b);
    }
  }

  lemma NoCommaInNumeral(i: int)
    ensures ',' !in IntToString(i)
  {
    var s := IntToString(i);
    assert forall k :: 0 <= k < |s| ==> s[k] != ',';
  }

  /** The fixed greedy quantifiers mean *, + and ?, and the '?' that ButAsFewAsPossible adds makes them lazy. */
  lemma ShorthandMeanings()
    ensures ParseQuantifier("*") == Some(Repetition(0, None, false))
    ensures ParseQuantifier("+") == Some(Repetition(1, None, false))
    ensures ParseQuantifier("?") == Some(Repetition(0, Some(1), false))
    ensures ParseQuantifier("*?") == Some(Repetition(0, None, true))
    ensures ParseQuantifier("+?") == Some(Repetition(1, None, true))
    ensures ParseQuantifier("??") == Some(Repetition(0, Some(1), true))
  {
    assert "*?"[..1] == "*";
    assert "+?"[..1] == "+";
    assert "??"[..1] == "?";
  }

  /** Appending the '?' of ButAsFewAsPossible to any greedy quantifier text gives its lazy form. */
  lemma LazyMeaning(s: string)
    requires ParseGreedy(s).Some?
    ensures ParseQuantifier(s + "?") == Some(ParseGreedy(s).value.(lazy := true))
  {
    assert (s + "?")[..|s|] == s;
  }

  /**
   * ButAsFewAsPossible does not check whether the text is lazy already: a
   * second call leaves a suffix that no longer reads as a quantifier.
   */
  lemma RepeatedLazyUnreadable(s: string)
    requires ParseGreedy(s).Some?
    ensures ParseQuantifier(s + "?" + "?") == None
  {
    var t := s + "?" + "?";
    assert t[..|t| - 1] == s + "?";
    assert ParseGreedy(s + "?") == None by {
      assert |s| >= 1;
      assert (s + "?")[|s|] == '?';
    }
  }
}
