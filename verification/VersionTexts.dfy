/** What versions and constraints mean as texts: decimal numerals, prefixes and suffixes, operators, conjunctions. */
module VersionTexts {
  import opened Versions
  import opened Wrappers

  // ----- numerals -----

  function Digit(d: nat): char
    requires d < 10
  {
    "0123456789"[d]
  }

  function Decimal(n: nat): (s: string)
    ensures s != ""
  {
    if n < 10 then [Digit(n)] else Decimal(n / 10) + [Digit(n % 10)]
  }

  lemma {:induction false} DecimalDigits(n: nat)
    ensures AllDigits(Decimal(n))
  {
    if n >= 10 { DecimalDigits(n / 10); }
  }

  lemma {:induction false} NumeralOfDecimal(n: nat)
    ensures Numeral(Decimal(n)) == n
  {
    var s := Decimal(n);
    if n < 10 {
      assert s[..0] == "" && Numeral("") == 0;
    } else {
      NumeralOfDecimal(n / 10);
      assert s[..|s| - 1] == Decimal(n / 10) && s[|s| - 1] == Digit(n % 10);
    }
  }

  predicate StartsWithDigit(s: string) {
    s != "" && '0' <= s[0] <= '9'
  }

  lemma {:induction false} LeadingOf(x: string, j: string)
    requires AllDigits(x) && !StartsWithDigit(j)
    ensures LeadingDigits(x + j) == x
    decreases x
  {
    if x == "" {
      assert x + j == j;
    } else {
      assert x[0] in x && (x + j)[1..] == x[1..] + j;
      LeadingOf(x[1..], j);
    }
  }

  lemma DecimalStart(n: nat, j: string)
    ensures SkipBlanks(Decimal(n) + j) == Decimal(n) + j && StartsWithDigit(Decimal(n) + j)
  {
    DecimalDigits(n);
    var s := Decimal(n);
    assert s[0] in s && (s + j)[0] == s[0];
  }

  /** A number is read up to the first character that is no digit. */
  lemma ComponentReads(n: nat, j: string)
    requires !StartsWithDigit(j)
    ensures Numeral(LeadingDigits(SkipBlanks(Decimal(n) + j))) == n
  {
    DecimalStart(n, j);
    DecimalDigits(n);
    LeadingOf(Decimal(n), j);
    NumeralOfDecimal(n);
  }

  /** A text read from its first character on is a number after a sign or a blank. */
  lemma SignReads(t: string)
    requires StartsWithDigit(t)
    ensures ParseInt(t) == Numeral(LeadingDigits(t))
    ensures ParseInt("+" + t) == Numeral(LeadingDigits(t)) && ParseInt("-" + t) == 0 - Numeral(LeadingDigits(t))
    ensures ParseInt(" " + t) == Numeral(LeadingDigits(t))
  {
    assert SkipBlanks(t) == t;
    assert SkipBlanks("+" + t) == "+" + t && ("+" + t)[1..] == t;
    assert SkipBlanks("-" + t) == "-" + t && ("-" + t)[1..] == t;
    assert (" " + t)[1..] == t && SkipBlanks(" " + t) == t;
  }

  /** The marketplace's numbers: a sign in front counts, what follows the digits does not. */
  lemma ParseIntReads(n: nat, j: string)
    requires !StartsWithDigit(j)
    ensures ParseInt(Decimal(n) + j) == n && ParseInt(" " + (Decimal(n) + j)) == n
    ensures ParseInt("-" + (Decimal(n) + j)) == 0 - n && ParseInt("+" + (Decimal(n) + j)) == n
  {
    ComponentReads(n, j);
    DecimalStart(n, j);
    SignReads(Decimal(n) + j);
  }

  /** Without digits there is no number, which counts as zero. */
  lemma NoDigitsAreZero(j: string)
    requires j == "" || (!StartsWithDigit(j) && !IsBlank(j[0]) && j[0] !in {'-', '+'})
    ensures ParseInt(j) == 0
  {
    assert SkipBlanks(j) == j && LeadingDigits(j) == "" && Numeral("") == 0;
  }

  // ----- dotted texts -----

  lemma {:induction false} SplitHead(x: string, y: string, seps: set<char>)
    requires forall c <- x :: c !in seps
    ensures Split(x + y, seps) == [x + Split(y, seps)[0]] + Split(y, seps)[1..]
    decreases x
  {
    if x == "" {
      assert x + y == y && x + Split(y, seps)[0] == Split(y, seps)[0];
    } else {
      assert x[0] in x && (x + y)[1..] == x[1..] + y;
      SplitHead(x[1..], y, seps);
      assert [x[0]] + (x[1..] + Split(y, seps)[0]) == x + Split(y, seps)[0];
    }
  }

  lemma SplitAt(x: string, sep: char, y: string, seps: set<char>)
    requires (forall c <- x :: c !in seps) && sep in seps
    ensures Split(x + [sep] + y, seps) == [x] + Split(y, seps)
  {
    var t := [sep] + y;
    assert t[1..] == y && x + [sep] + y == x + t;
    assert Split(t, seps) == [[]] + Split(y, seps);
    SplitHead(x, t, seps);
    assert x + [] == x;
  }

  lemma DecimalUnsplit(n: nat)
    ensures forall c <- Decimal(n) :: c !in {'.', '+', '-'}
  {
    DecimalDigits(n);
  }

  const SEPARATORS := {'.', '+', '-'}

  lemma LastComponent(n: nat, rest: string, seps: set<char>)
    requires !StartsWithDigit(rest) && seps <= SEPARATORS
    ensures var s := Split(Decimal(n) + rest, seps);
            |s| >= 1 && Numeral(LeadingDigits(SkipBlanks(s[0]))) == n && s[1..] == Split(rest, seps)[1..]
            && s[0] == Decimal(n) + Split(rest, seps)[0]
  {
    DecimalUnsplit(n);
    SplitHead(Decimal(n), rest, seps);
    FirstOfSplit(rest, seps);
    ComponentReads(n, Split(rest, seps)[0]);
  }

  lemma FirstOfSplit(rest: string, seps: set<char>)
    requires !StartsWithDigit(rest)
    ensures !StartsWithDigit(Split(rest, seps)[0])
  {
  }

  lemma SplitTwice(x: string, y: string, tail: string)
    requires (forall c <- x :: c !in SEPARATORS) && (forall c <- y :: c !in SEPARATORS)
    ensures Split(x + "." + (y + "." + tail), SEPARATORS) == [x, y] + Split(tail, SEPARATORS)
  {
    SplitAt(y, '.', tail, SEPARATORS);
    SplitAt(x, '.', y + "." + tail, SEPARATORS);
  }

  /** Three numbers joined by dots, with anything but another digit behind them. */
  lemma ThreeNumbers(a: nat, b: nat, c: nat, rest: string)
    requires !StartsWithDigit(rest)
    ensures TripleOf(Decimal(a) + "." + (Decimal(b) + "." + (Decimal(c) + rest))) == Triple(a, b, c)
    ensures Second(Decimal(a) + "." + (Decimal(b) + "." + (Decimal(c) + rest))) == Some(b)
  {
    DecimalUnsplit(a);
    DecimalUnsplit(b);
    LastComponent(c, rest, SEPARATORS);
    PlainComponents(a, b);
    StartOfDecimal(a);
    ThreeComponents(Decimal(a), Decimal(b), Decimal(c) + rest);
  }

  lemma ThreeComponents(x: string, y: string, tail: string)
    requires (forall c <- x :: c !in SEPARATORS) && (forall c <- y :: c !in SEPARATORS) && StartsWithDigit(x)
    ensures Parts(x + "." + (y + "." + tail)) == Numbers([x, y, Split(tail, SEPARATORS)[0]])
  {
    var v, t := x + "." + (y + "." + tail), Split(tail, SEPARATORS);
    SplitTwice(x, y, tail);
    assert v[0] == x[0];
    FirstThree(v, [x, y] + t);
    if |t| == 1 {
      assert [x, y] + t == [x, y, t[0]];
    } else {
      assert ([x, y] + t)[..3] == [x, y, t[0]];
    }
  }

  lemma PlainComponents(a: nat, b: nat)
    ensures Numeral(LeadingDigits(SkipBlanks(Decimal(a)))) == a && Numeral(LeadingDigits(SkipBlanks(Decimal(b)))) == b
  {
    ComponentReads(a, "");
    ComponentReads(b, "");
    assert Decimal(a) + "" == Decimal(a) && Decimal(b) + "" == Decimal(b);
  }

  lemma FirstThree(v: string, s: seq<string>)
    requires StartsWithDigit(v) && s == Split(v, SEPARATORS)
    ensures Parts(v) == Numbers(if |s| <= 3 then s else s[..3])
  {
  }

  lemma TwoComponents(x: string, y: string)
    requires (forall c <- x :: c !in SEPARATORS) && (forall c <- y :: c !in SEPARATORS) && StartsWithDigit(x)
    ensures Parts(x) == Numbers([x]) && Parts(x + "." + y) == Numbers([x, y])
  {
    SplitWhole(x);
    SplitWhole(y);
    SplitAt(x, '.', y, SEPARATORS);
    assert (x + "." + y)[0] == x[0];
    FirstThree(x, [x]);
    FirstThree(x + "." + y, [x, y]);
  }

  /** Without a third or second number they count as zero; a version of one number has no second one. */
  lemma FewerNumbers(a: nat, b: nat)
    ensures TripleOf(Decimal(a) + "." + Decimal(b)) == Triple(a, b, 0)
    ensures Second(Decimal(a) + "." + Decimal(b)) == Some(b)
    ensures TripleOf(Decimal(a)) == Triple(a, 0, 0) && Second(Decimal(a)) == None
  {
    DecimalUnsplit(a);
    DecimalUnsplit(b);
    PlainComponents(a, b);
    StartOfDecimal(a);
    TwoComponents(Decimal(a), Decimal(b));
  }

  lemma StartOfDecimal(n: nat)
    ensures StartsWithDigit(Decimal(n))
  {
    DecimalStart(n, "");
    assert Decimal(n) + "" == Decimal(n);
  }

  lemma SplitWhole(x: string)
    requires forall c <- x :: c !in SEPARATORS
    ensures Split(x, SEPARATORS) == [x] && Split(x, {'.'}) == [x]
  {
    SplitHead(x, "", SEPARATORS);
    SplitHead(x, "", {'.'});
    assert x + "" == x && Split("", SEPARATORS) == [""] && Split("", {'.'}) == [""];
  }

  /** A leading v or V does not count, once; an absent version is zero. */
  lemma PrefixIgnored(t: string)
    requires t != "" && t[0] !in {'v', 'V'}
    ensures TripleOf("v" + t) == TripleOf("V" + t) == TripleOf(t) && Second("v" + t) == Second("V" + t) == Second(t)
  {
    assert ("v" + t)[1..] == ("V" + t)[1..] == t;
  }

  lemma NoLeadingDigits(j: string)
    requires !StartsWithDigit(j) && forall c <- j :: !IsBlank(c)
    ensures Numeral(LeadingDigits(SkipBlanks(j))) == 0
  {
    if j != "" { assert j[0] in j; }
    assert SkipBlanks(j) == j && LeadingDigits(j) == "" && Numeral("") == 0;
  }

  lemma TwoRead(v: string, x: string, y: string, a: nat, b: nat)
    requires Parts(v) == Numbers([x, y]) && Numeral(LeadingDigits(SkipBlanks(x))) == a
    requires Numeral(LeadingDigits(SkipBlanks(y))) == b
    ensures TripleOf(v) == Triple(a, b, 0)
  {
  }

  /** A component that does not start with a digit is zero. */
  lemma WordsAreZero(a: nat, j: string)
    requires !StartsWithDigit(j) && (forall c <- j :: c !in SEPARATORS && !IsBlank(c))
    ensures TripleOf(Decimal(a) + "." + j) == Triple(a, 0, 0)
  {
    DecimalUnsplit(a);
    StartOfDecimal(a);
    PlainComponents(a, a);
    WordAfter(Decimal(a), a, j);
  }

  lemma WordAfter(x: string, a: nat, j: string)
    requires (forall c <- x :: c !in SEPARATORS) && StartsWithDigit(x) && Numeral(LeadingDigits(SkipBlanks(x))) == a
    requires !StartsWithDigit(j) && (forall c <- j :: c !in SEPARATORS && !IsBlank(c))
    ensures TripleOf(x + "." + j) == Triple(a, 0, 0)
  {
    NoLeadingDigits(j);
    TwoComponents(x, j);
    TwoRead(x + "." + j, x, j, a, 0);
  }

  // ----- numerals in constraints -----

  /** One, two and three numbers joined by dots are references. */
  lemma References(x: string, y: string, z: string)
    requires x != "" && y != "" && z != "" && AllDigits(x) && AllDigits(y) && AllDigits(z)
    ensures DottedNumeral(x) && DottedNumeral(x + "." + y) && DottedNumeral(x + "." + (y + "." + z))
  {
    SplitDigits(x, y);
    SplitDigits(y, z);
    SplitDigits(x, y + "." + z);
    SplitWhole(z);
    assert Split(x, {'.'}) == [x];
    assert Split(x + "." + y, {'.'}) == [x, y];
    assert Split(x + "." + (y + "." + z), {'.'}) == [x, y, z];
  }

  /** Four numbers are not, nor is a missing number. */
  lemma NoReferences(x: string, y: string, z: string, rest: string)
    requires AllDigits(x) && AllDigits(y) && AllDigits(z)
    ensures !DottedNumeral(x + "." + (y + "." + (z + "." + rest))) && !DottedNumeral("") && !DottedNumeral(x + ".")
  {
    SplitDigits(z, rest);
    SplitDigits(y, z + "." + rest);
    SplitDigits(x, y + "." + (z + "." + rest));
    assert Split(x + "." + (y + "." + (z + "." + rest)), {'.'}) == [x, y, z] + Split(rest, {'.'});
    SplitDigits(x, "");
    assert x + "." + "" == x + ".";
    assert Split("", {'.'}) == [""] && Split(x + ".", {'.'}) == [x, ""];
    EmptyPart("", 0);
    EmptyPart(x + ".", 1);
  }

  lemma EmptyPart(r: string, i: nat)
    requires i < |Split(r, {'.'})| && Split(r, {'.'})[i] == ""
    ensures !DottedNumeral(r)
  {
    assert Split(r, {'.'})[i] in Split(r, {'.'});
  }

  lemma SplitDigits(x: string, rest: string)
    requires AllDigits(x)
    ensures Split(x + "." + rest, {'.'}) == [x] + Split(rest, {'.'}) && Split(x, {'.'}) == [x]
  {
    SplitAt(x, '.', rest, {'.'});
    SplitWhole(x);
  }

  /** A reference starts with a digit and has digits and dots only. */
  lemma {:induction false} ReferenceChars(r: string)
    requires forall d <- Split(r, {'.'}) :: AllDigits(d)
    ensures forall c <- r :: IsDigit(c) || c == '.'
    decreases r
  {
    if r != "" {
      var rest, all := Split(r[1..], {'.'}), Split(r, {'.'});
      if r[0] == '.' {
        assert forall d :: d in rest ==> d in all;
      } else {
        assert all[0] == [r[0]] + rest[0] && all[0] in all && r[0] in all[0];
        forall d | d in rest ensures AllDigits(d) {
          if d == rest[0] { assert forall c :: c in d ==> c in all[0]; } else { assert d in rest[1..] && d in all; }
        }
      }
      ReferenceChars(r[1..]);
      assert r == [r[0]] + r[1..];
    }
  }

  lemma ReferenceStarts(r: string)
    requires DottedNumeral(r)
    ensures r != "" && StartsWithDigit(r) && NoBlanks(r)
  {
    if r == "" {
      assert Split("", {'.'}) == [""];
      EmptyPart("", 0);
    }
    FirstIsDigit(r);
    ReferenceChars(r);
  }

  // ----- one constraint -----

  predicate NoBlanks(s: string) {
    forall c <- s :: !IsBlank(c)
  }

  const OPERATORS := {"", ">=", "<=", ">", "<", "=", "^", "~"}

  lemma ReadAs(p: string, op: Operator, r: string)
    requires DottedNumeral(r) && OperatorOf(p).0 == op && OperatorOf(p).1 in {r, "v" + r}
    ensures ReadConstraint(p) == Some((op, r))
  {
    ReferenceStarts(r);
    assert ("v" + r)[1..] == r;
  }

  lemma ReadTwoSigns(o: char, r: string)
    requires DottedNumeral(r) && o in {'>', '<'}
    ensures ReadConstraint([o, '='] + r) == Some((if o == '>' then AtLeast else AtMost, r))
    ensures ReadConstraint([o, '=', 'v'] + r) == Some((if o == '>' then AtLeast else AtMost, r))
  {
    assert ([o, '='] + r)[2..] == r && ([o, '=', 'v'] + r)[2..] == "v" + r;
    ReadAs([o, '='] + r, if o == '>' then AtLeast else AtMost, r);
    ReadAs([o, '=', 'v'] + r, if o == '>' then AtLeast else AtMost, r);
  }

  lemma ReadOneSign(o: char, r: string)
    requires DottedNumeral(r) && o in {'>', '<', '=', '^', '~'}
    ensures ReadConstraint([o] + r) == ReadConstraint([o, 'v'] + r) == Some((Reading(o), r))
  {
    ReferenceStarts(r);
    assert ([o] + r)[1..] == r && ([o, 'v'] + r)[1..] == "v" + r;
    ReadAs([o] + r, Reading(o), r);
    ReadAs([o, 'v'] + r, Reading(o), r);
  }

  lemma ReadNoSign(r: string)
    requires DottedNumeral(r)
    ensures ReadConstraint(r) == ReadConstraint("v" + r) == Some((Exactly, r))
  {
    ReferenceStarts(r);
    ReadAs(r, Exactly, r);
    ReadAs("v" + r, Exactly, r);
  }

  /** How each operator in front of a reference is read; a v between them makes no difference. */
  lemma OperatorsRead(r: string)
    requires DottedNumeral(r)
    ensures ReadConstraint(">=" + r) == ReadConstraint(">=v" + r) == Some((AtLeast, r))
    ensures ReadConstraint("<=" + r) == ReadConstraint("<=v" + r) == Some((AtMost, r))
    ensures ReadConstraint(">" + r) == ReadConstraint(">v" + r) == Some((Above, r))
    ensures ReadConstraint("<" + r) == ReadConstraint("<v" + r) == Some((Below, r))
    ensures ReadConstraint("=" + r) == ReadConstraint("=v" + r) == Some((Exactly, r))
    ensures ReadConstraint(r) == ReadConstraint("v" + r) == Some((Exactly, r))
    ensures ReadConstraint("^" + r) == ReadConstraint("^v" + r) == Some((Caret, r))
    ensures ReadConstraint("~" + r) == ReadConstraint("~v" + r) == Some((Tilde, r))
  {
    ReadTwoSigns('>', r);
    ReadTwoSigns('<', r);
    ReadOneSign('>', r);
    ReadOneSign('<', r);
    ReadOneSign('=', r);
    ReadOneSign('^', r);
    ReadOneSign('~', r);
    ReadNoSign(r);
  }

  function Reading(o: char): Operator {
    match o
    case '>' => Above
    case '<' => Below
    case '^' => Caret
    case '~' => Tilde
    case _ => Exactly
  }

  lemma BoundMeans(v: string, p: string, op: Operator, r: string)
    requires ReadConstraint(p) == Some((op, r))
    ensures op == AtLeast ==> (SatisfiesOne(v, p) <==> !Less(TripleOf(v), TripleOf(r)))
    ensures op == Above ==> (SatisfiesOne(v, p) <==> Less(TripleOf(r), TripleOf(v)))
    ensures op == AtMost ==> (SatisfiesOne(v, p) <==> !Less(TripleOf(r), TripleOf(v)))
    ensures op == Below ==> (SatisfiesOne(v, p) <==> Less(TripleOf(v), TripleOf(r)))
    ensures op == Exactly ==> (SatisfiesOne(v, p) <==> TripleOf(v) == TripleOf(r))
  {
    ComparisonIsTotalPreorder(v, r, r);
  }

  lemma RangeMeans(v: string, p: string, op: Operator, r: string)
    requires ReadConstraint(p) == Some((op, r)) && op in {Caret, Tilde}
    ensures SatisfiesOne(v, p) <==>
              && !Less(TripleOf(v), TripleOf(r)) && TripleOf(v).major == TripleOf(r).major
              && (op == Tilde ==> TripleOf(v).minor == TripleOf(r).minor && (Second(v).Some? <==> Second(r).Some?))
  {
  }

  /** What a word admits, by its text. */
  lemma WordsMean(v: string, r: string)
    requires DottedNumeral(r)
    ensures SatisfiesOne(v, ">=" + r) <==> !Less(TripleOf(v), TripleOf(r))
    ensures SatisfiesOne(v, ">" + r) <==> Less(TripleOf(r), TripleOf(v))
    ensures SatisfiesOne(v, "<=" + r) <==> !Less(TripleOf(r), TripleOf(v))
    ensures SatisfiesOne(v, "<" + r) <==> Less(TripleOf(v), TripleOf(r))
    ensures SatisfiesOne(v, "=" + r) <==> TripleOf(v) == TripleOf(r)
    ensures SatisfiesOne(v, r) <==> TripleOf(v) == TripleOf(r)
  {
    OperatorsRead(r);
    BoundMeans(v, ">=" + r, AtLeast, r);
    BoundMeans(v, ">" + r, Above, r);
    BoundMeans(v, "<=" + r, AtMost, r);
    BoundMeans(v, "<" + r, Below, r);
    BoundMeans(v, "=" + r, Exactly, r);
    BoundMeans(v, r, Exactly, r);
  }

  lemma RangeWordsMean(v: string, r: string)
    requires DottedNumeral(r)
    ensures SatisfiesOne(v, "^" + r) <==> !Less(TripleOf(v), TripleOf(r)) && TripleOf(v).major == TripleOf(r).major
    ensures SatisfiesOne(v, "~" + r) <==>
              && !Less(TripleOf(v), TripleOf(r)) && TripleOf(v).major == TripleOf(r).major
              && TripleOf(v).minor == TripleOf(r).minor && (Second(v).Some? <==> Second(r).Some?)
  {
    OperatorsRead(r);
    RangeMeans(v, "^" + r, Caret, r);
    RangeMeans(v, "~" + r, Tilde, r);
  }

  lemma OperatorSplits(p: string) returns (o: string)
    ensures o in OPERATORS && p == o + OperatorOf(p).1
  {
    var n := |p| - |OperatorOf(p).1|;
    o := p[..n];
    assert p == o + OperatorOf(p).1;
    if n == 1 {
      assert o == [p[0]];
    } else if n == 2 {
      assert o == [p[0], p[1]];
    }
  }

  lemma SatisfiedIsRead(v: string, p: string)
    requires SatisfiesOne(v, p)
    ensures ReadConstraint(p).Some?
  {
  }

  lemma ReadParts(p: string) returns (v: string, r: string)
    requires ReadConstraint(p).Some?
    ensures v in {"", "v"} && OperatorOf(p).1 == v + r && DottedNumeral(r)
  {
    var rest := OperatorOf(p).1;
    if rest != "" && rest[0] == 'v' {
      v, r := "v", rest[1..];
    } else {
      v, r := "", rest;
    }
    assert rest == v + r;
  }

  /** Nothing else is a constraint: a word that some version satisfies is an operator, perhaps a v, and a reference. */
  lemma OtherWordsRefuse(version: string, p: string) returns (o: string, v: string, r: string)
    requires SatisfiesOne(version, p)
    ensures o in OPERATORS && v in {"", "v"} && DottedNumeral(r) && p == o + (v + r)
  {
    SatisfiedIsRead(version, p);
    o := OperatorSplits(p);
    v, r := ReadParts(p);
  }

  // ----- whole constraints -----

  lemma {:induction false} WordIsItself(p: string)
    requires p != "" && NoBlanks(p)
    ensures SkipBlanks(p) == p && FirstWord(p) == p
  {
    assert p[0] in p;
    if |p| > 1 {
      assert p[1] in p;
      WordIsItself(p[1..]);
    }
  }

  lemma OneWord(p: string)
    requires p != "" && NoBlanks(p)
    ensures Trim(p) == p && Words(p) == [p]
  {
    WordIsItself(p);
    assert p[|p| - 1] in p;
    assert p[|p|..] == "" && Words("") == [];
  }

  lemma {:induction false} FirstOfTwo(p: string, b: char, q: string)
    requires IsBlank(b) && p != "" && NoBlanks(p)
    ensures !IsBlank((p + [b] + q)[0]) && FirstWord(p + [b] + q) == p
    decreases p
  {
    var t := p + [b] + q;
    assert p[0] in p;
    if |p| == 1 {
      assert t[1] == b;
    } else {
      assert p[1] in p && t[1..] == p[1..] + [b] + q;
      FirstOfTwo(p[1..], b, q);
    }
  }

  lemma BlankFirst(b: char, q: string)
    requires IsBlank(b)
    ensures Words([b] + q) == Words(q)
  {
    assert ([b] + q)[1..] == q;
    assert SkipBlanks([b] + q) == SkipBlanks(q);
  }

  lemma WordsFrom(t: string, w: string)
    requires t != "" && !IsBlank(t[0]) && FirstWord(t) == w
    ensures Words(t) == [w] + Words(t[|w|..])
  {
    assert SkipBlanks(t) == t;
  }

  lemma TwoWords(p: string, b: char, q: string)
    requires IsBlank(b) && p != "" && q != "" && NoBlanks(p) && NoBlanks(q)
    ensures Trim(p + [b] + q) == p + [b] + q && Words(p + [b] + q) == [p, q]
  {
    var t := p + [b] + q;
    FirstOfTwo(p, b, q);
    OneWord(q);
    WordsFrom(t, p);
    BlankFirst(b, q);
    assert t[|p|..] == [b] + q;
    assert t[|t| - 1] == q[|q| - 1] && q[|q| - 1] in q;
    assert SkipBlanks(t) == t;
  }

  lemma {:induction false} LowerLength(s: string)
    ensures |Lower(s)| == |s|
    ensures forall i :: 0 <= i < |s| && !('A' <= s[i] <= 'Z') ==> Lower(s)[i] == s[i]
    ensures forall i :: 0 <= i < |s| && 'A' <= s[i] <= 'Z' ==> Lower(s)[i] as int == s[i] as int + 32
  {
    if s != "" { LowerLength(s[1..]); }
  }

  /** A text with a digit in it is no wildcard. */
  lemma DigitRestricts(p: string)
    requires p != "" && NoBlanks(p) && exists c <- p :: IsDigit(c)
    ensures !Unrestricted(p)
  {
    OneWord(p);
    var i :| 0 <= i < |p| && IsDigit(p[i]);
    LowerLength(p);
    assert Lower(p)[i] == p[i];
    assert forall k :: 0 <= k < 6 ==> !IsDigit("latest"[k]);
  }

  lemma OperatorBlanks(o: string, r: string)
    requires o in OPERATORS && DottedNumeral(r)
    ensures o + r != "" && NoBlanks(o + r) && !Unrestricted(o + r)
    ensures Words(Trim(o + r)) == [o + r]
  {
    ReferenceStarts(r);
    assert NoBlanks(o);
    assert (o + r)[|o|] == r[0] && r[0] in o + r;
    DigitRestricts(o + r);
    OneWord(o + r);
  }

  /** A constraint of one word admits what the word admits, and never an absent version. */
  lemma OneWordConstraint(v: string, o: string, r: string)
    requires o in OPERATORS && DottedNumeral(r)
    ensures Satisfies(v, o + r) <==> v != "" && SatisfiesOne(v, o + r)
  {
    OperatorBlanks(o, r);
    assert o + r in Words(Trim(o + r));
  }

  /** The blanks of ECMAScript's regular expressions: tab to carriage return, space, and those of Unicode. */
  const BLANKS := {
    9, 10, 11, 12, 13, 0x20, 0xA0, 0x1680, 0x2000, 0x2001, 0x2002, 0x2003, 0x2004, 0x2005, 0x2006, 0x2007, 0x2008,
    0x2009, 0x200A, 0x2028, 0x2029, 0x202F, 0x205F, 0x3000, 0xFEFF}

  lemma BlankChars(b: char)
    ensures IsBlank(b) <==> b as int in BLANKS
  {
  }

  /** Two words joined by a blank admit what both admit. */
  lemma Conjunction(v: string, o: string, r: string, b: char, o': string, r': string)
    requires b as int in BLANKS && o in OPERATORS && DottedNumeral(r) && o' in OPERATORS && DottedNumeral(r')
    ensures Satisfies(v, o + r + [b] + (o' + r')) <==> Satisfies(v, o + r) && Satisfies(v, o' + r')
  {
    var p, q := o + r, o' + r';
    BlankChars(b);
    OperatorBlanks(o, r);
    OperatorBlanks(o', r');
    OneWordConstraint(v, o, r);
    OneWordConstraint(v, o', r');
    TwoWords(p, b, q);
    BlankRestricts(p, b, q);
    assert Words(Trim(p + [b] + q)) == [p, q];
    assert p in [p, q] && q in [p, q];
  }

  lemma BlankRestricts(p: string, b: char, q: string)
    requires IsBlank(b) && p != "" && q != "" && NoBlanks(p) && NoBlanks(q)
    ensures !Unrestricted(p + [b] + q)
  {
    var t := p + [b] + q;
    TwoWords(p, b, q);
    LowerLength(t);
    assert t[|p|] == b && Lower(t)[|p|] == b;
    assert forall k :: 0 <= k < 6 ==> !IsBlank("latest"[k]);
    assert b != '*';
  }

  lemma {:induction false} SkipEndOf(s: string, b: char)
    requires IsBlank(b)
    ensures SkipBlanksEnd(s + [b]) == SkipBlanksEnd(s)
  {
    assert (s + [b])[..|s|] == s;
  }

  lemma {:induction false} SkipBefore(s: string, b: char)
    requires IsBlank(b)
    ensures SkipBlanks(s + [b]) == if SkipBlanks(s) == "" then "" else SkipBlanks(s) + [b]
  {
    if s != "" && IsBlank(s[0]) {
      assert (s + [b])[1..] == s[1..] + [b];
      SkipBefore(s[1..], b);
    } else if s == "" {
      assert "" + [b] == [b] && [b][1..] == "";
    }
  }

  /** Blanks around a constraint do not count. */
  lemma BlanksAround(v: string, c: string, b: char)
    requires b as int in BLANKS
    ensures Satisfies(v, [b] + c) == Satisfies(v, c) == Satisfies(v, c + [b])
  {
    BlankChars(b);
    assert ([b] + c)[1..] == c;
    SkipBefore(c, b);
    SkipEndOf(SkipBlanks(c), b);
    assert Trim([b] + c) == Trim(c) == Trim(c + [b]);
  }

  /** No text, a star, and the word latest in any spelling admit every version, an absent one too. */
  lemma WildcardsAdmitAll(v: string, c: string)
    requires |c| == 6 && forall i :: 0 <= i < 6 ==> c[i] in {"latest"[i], "LATEST"[i]}
    ensures Satisfies(v, "") && Satisfies(v, "*") && Satisfies(v, c)
  {
    Wildcard(v);
    LowerLength(c);
    assert Lower(c) == "latest";
    assert NoBlanks(c);
    OneWord(c);
  }
}
