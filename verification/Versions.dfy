/** Version numbers and the constraint language of the dependency declarations. */
module Versions {
  import opened Wrappers

  /** The three numbers a version is compared by. */
  datatype Triple = Triple(major: nat, minor: nat, patch: nat)

  datatype Operator = AtLeast | Above | AtMost | Below | Exactly | Caret | Tilde

  // ----- text -----

  predicate IsDigit(c: char) {
    '0' <= c <= '9'
  }

  predicate IsBlank(c: char) {
    var u := c as int;
    9 <= u <= 13 || u in {0x20, 0xA0, 0x1680, 0x2028, 0x2029, 0x202F, 0x205F, 0x3000, 0xFEFF} || 0x2000 <= u <= 0x200A
  }

  predicate AllDigits(s: string) {
    forall c <- s :: IsDigit(c)
  }

  function SkipBlanks(s: string): (r: string)
    ensures |r| <= |s|
    ensures r != [] ==> !IsBlank(r[0])
  {
    if s != [] && IsBlank(s[0]) then SkipBlanks(s[1..]) else s
  }

  function SkipBlanksEnd(s: string): string {
    if s != [] && IsBlank(s[|s| - 1]) then SkipBlanksEnd(s[..|s| - 1]) else s
  }

  function Trim(s: string): string {
    SkipBlanksEnd(SkipBlanks(s))
  }

  function LeadingDigits(s: string): string {
    if s != [] && IsDigit(s[0]) then [s[0]] + LeadingDigits(s[1..]) else []
  }

  function Numeral(s: string): nat {
    if s == [] then 0
    else
      var d := s[|s| - 1];
      10 * Numeral(s[..|s| - 1]) + (if IsDigit(d) then d as int - '0' as int else 0)
  }

  /** parseInt(text, 10), with 0 where there is no number. */
  function ParseInt(s: string): int {
    var t := SkipBlanks(s);
    if t != [] && t[0] == '-' then 0 - Numeral(LeadingDigits(t[1..]))
    else if t != [] && t[0] == '+' then Numeral(LeadingDigits(t[1..]))
    else Numeral(LeadingDigits(t))
  }

  function Split(s: string, separators: set<char>): (r: seq<string>)
    ensures |r| >= 1
  {
    if s == [] then [[]]
    else
      var rest := Split(s[1..], separators);
      if s[0] in separators then [[]] + rest else [[s[0]] + rest[0]] + rest[1..]
  }

  function Words(s: string): seq<string>
    decreases |s|
  {
    var t := SkipBlanks(s);
    if t == [] then [] else
      var w := FirstWord(t);
      [w] + Words(t[|w|..])
  }

  function FirstWord(s: string): (w: string)
    requires s != [] && !IsBlank(s[0])
    ensures 1 <= |w| <= |s|
  {
    if |s| == 1 || IsBlank(s[1]) then [s[0]] else [s[0]] + FirstWord(s[1..])
  }

  // ----- versions -----

  /** Up to three numbers. A component never starts with a sign, since both signs separate components. */
  function Parts(version: string): (r: seq<nat>)
    ensures 1 <= |r| <= 3
  {
    var s := if version == "" then "0" else version;
    var t := if s[0] in {'v', 'V'} then s[1..] else s;
    var c := Split(t, {'.', '+', '-'});
    Numbers(if |c| <= 3 then c else c[..3])
  }

  function Numbers(c: seq<string>): (r: seq<nat>)
    ensures |r| == |c|
    ensures forall i :: 0 <= i < |c| ==> r[i] == Numeral(LeadingDigits(SkipBlanks(c[i])))
  {
    if c == [] then [] else [Numeral(LeadingDigits(SkipBlanks(c[0])))] + Numbers(c[1..])
  }

  function At(s: seq<int>, i: nat): int {
    if i < |s| then s[i] else 0
  }

  function TripleOf(version: string): Triple {
    var p := Parts(version);
    Triple(p[0], if |p| > 1 then p[1] else 0, if |p| > 2 then p[2] else 0)
  }

  /** The second number where there is one; a version of one number has none, which is not the number zero. */
  function Second(version: string): Option<nat> {
    var p := Parts(version);
    if |p| > 1 then Some(p[1]) else None
  }

  /** Both versions have a second number, or neither has. */
  predicate SameShape(a: string, b: string) {
    Second(a).Some? <==> Second(b).Some?
  }

  predicate Less(a: Triple, b: Triple) {
    a.major < b.major || (a.major == b.major && (a.minor < b.minor || (a.minor == b.minor && a.patch < b.patch)))
  }

  function Compare(a: string, b: string): int {
    var x, y := TripleOf(a), TripleOf(b);
    if Less(x, y) then -1 else if Less(y, x) then 1 else 0
  }

  ghost predicate SamePrefix(x: seq<int>, y: seq<int>, n: nat) {
    forall k :: 0 <= k < n ==> At(x, k) == At(y, k)
  }

  predicate LexLess(x: seq<int>, y: seq<int>) {
    || At(x, 0) < At(y, 0)
    || (At(x, 0) == At(y, 0) && (At(x, 1) < At(y, 1) || (At(x, 1) == At(y, 1) && At(x, 2) < At(y, 2))))
  }

  lemma FirstDifference(x: seq<int>, y: seq<int>, i: nat)
    requires i < 3 && SamePrefix(x, y, i) && At(x, i) != At(y, i)
    ensures At(x, i) < At(y, i) <==> LexLess(x, y)
    ensures At(x, i) > At(y, i) <==> LexLess(y, x)
  {
    assert i > 0 ==> At(x, 0) == At(y, 0);
    assert i > 1 ==> At(x, 1) == At(y, 1);
  }

  /** The comparison loop: the first of three positions that differ decides. */
  method CompareParts(x: seq<int>, y: seq<int>) returns (sign: int)
    ensures sign == if LexLess(x, y) then -1 else if LexLess(y, x) then 1 else 0
  {
    for i := 0 to 3
      invariant SamePrefix(x, y, i)
    {
      var d := At(x, i) - At(y, i);
      if d != 0 {
        FirstDifference(x, y, i);
        return if d > 0 then 1 else -1;
      }
    }
    return 0;
  }

  lemma LessByParts(a: string, b: string)
    ensures Less(TripleOf(a), TripleOf(b)) <==> LexLess(Parts(a), Parts(b))
  {
  }

  method CompareVersions(a: string, b: string) returns (sign: int)
    ensures sign == Compare(a, b)
  {
    LessByParts(a, b);
    LessByParts(b, a);
    sign := CompareParts(Parts(a), Parts(b));
  }

  // ----- constraints -----

  function OperatorOf(p: string): (Operator, string) {
    if |p| >= 2 && p[0] == '>' && p[1] == '=' then (AtLeast, p[2..])
    else if |p| >= 2 && p[0] == '<' && p[1] == '=' then (AtMost, p[2..])
    else if |p| >= 1 && p[0] == '>' then (Above, p[1..])
    else if |p| >= 1 && p[0] == '<' then (Below, p[1..])
    else if |p| >= 1 && p[0] == '=' then (Exactly, p[1..])
    else if |p| >= 1 && p[0] == '^' then (Caret, p[1..])
    else if |p| >= 1 && p[0] == '~' then (Tilde, p[1..])
    else (Exactly, p)
  }

  /** One to three runs of digits joined by dots. */
  predicate DottedNumeral(s: string) {
    var c := Split(s, {'.'});
    |c| <= 3 && forall d <- c :: d != [] && AllDigits(d)
  }

  function ReadConstraint(p: string): Option<(Operator, string)> {
    var (op, rest) := OperatorOf(p);
    var ref := if rest != [] && rest[0] == 'v' then rest[1..] else rest;
    if DottedNumeral(ref) then Some((op, ref)) else None
  }

  predicate SatisfiesOne(version: string, p: string) {
    match ReadConstraint(p)
    case None => false
    case Some((op, ref)) =>
      var sign := Compare(version, ref);
      var (r, v) := (TripleOf(ref), TripleOf(version));
      match op
      case AtLeast => sign >= 0
      case Above => sign > 0
      case AtMost => sign <= 0
      case Below => sign < 0
      case Caret => sign >= 0 && v.major == r.major
      case Tilde => sign >= 0 && v.major == r.major && Second(version) == Second(ref)
      case Exactly => sign == 0
  }

  function Lower(s: string): string {
    if s == [] then [] else [if 'A' <= s[0] <= 'Z' then (s[0] as int + 32) as char else s[0]] + Lower(s[1..])
  }

  predicate Unrestricted(constraint: string) {
    Trim(constraint) in {"", "*"} || Lower(Trim(constraint)) == "latest"
  }

  /** An absent version is the empty text. */
  predicate Satisfies(version: string, constraint: string) {
    || Unrestricted(constraint)
    || (version != "" && forall p <- Words(Trim(constraint)) :: SatisfiesOne(version, p))
  }

  // ----- what the comparison and the constraints mean -----

  /** The comparison is a total preorder whose classes are the equal triples. */
  lemma ComparisonIsTotalPreorder(a: string, b: string, c: string)
    ensures Compare(a, b) == -Compare(b, a)
    ensures Compare(a, b) == 0 <==> TripleOf(a) == TripleOf(b)
    ensures Compare(a, b) <= 0 && Compare(b, c) <= 0 ==> Compare(a, c) <= 0
    ensures Compare(a, b) < 0 && Compare(b, c) <= 0 ==> Compare(a, c) < 0
  {
    var x, y := TripleOf(a), TripleOf(b);
    assert x == y <==> x.major == y.major && x.minor == y.minor && x.patch == y.patch;
  }

  /** From the reference up to, not including, the next major version for `^`, the next minor one for `~`. */
  predicate InInterval(op: Operator, v: Triple, r: Triple)
    requires op in {Caret, Tilde}
  {
    !Less(v, r) && Less(v, if op == Caret then Triple(r.major + 1, 0, 0) else Triple(r.major, r.minor + 1, 0))
  }

  /** `^` admits exactly its interval; `~` admits of its interval what has a second number just when the
      reference has. */
  lemma CaretAndTildeIntervals(version: string, p: string)
    requires ReadConstraint(p).Some? && ReadConstraint(p).value.0 in {Caret, Tilde}
    ensures var (op, ref) := ReadConstraint(p).value;
            SatisfiesOne(version, p) <==>
              InInterval(op, TripleOf(version), TripleOf(ref)) && (op == Tilde ==> SameShape(version, ref))
  {
  }

  /** The documented meaning of `~` is met exactly by the versions outside its interval and those of the same shape. */
  lemma TildeMeetsIntervalExactly(version: string, p: string)
    requires ReadConstraint(p).Some? && ReadConstraint(p).value.0 == Tilde
    ensures var r := ReadConstraint(p).value.1;
            (SatisfiesOne(version, p) <==> InInterval(Tilde, TripleOf(version), TripleOf(r)))
            <==> (!InInterval(Tilde, TripleOf(version), TripleOf(r)) || SameShape(version, r))
  {
  }

  /** Three versions, none absent, in ascending order. */
  predicate Ascending(low: string, mid: string, high: string) {
    low != "" && mid != "" && high != "" && Compare(low, mid) <= 0 && Compare(mid, high) <= 0
  }

  predicate IsTilde(p: string) {
    ReadConstraint(p).Some? && ReadConstraint(p).value.0 == Tilde
  }

  predicate HasTilde(constraint: string) {
    !Unrestricted(constraint) && exists p <- Words(Trim(constraint)) :: IsTilde(p)
  }

  /** A version between two that satisfy a conjunction satisfies it too, exactly unless a `~` meets another shape. */
  lemma ConvexExactly(low: string, mid: string, high: string, constraint: string)
    ensures Ascending(low, mid, high) && Satisfies(low, constraint) && Satisfies(high, constraint) ==>
              (Satisfies(mid, constraint) <==> !HasTilde(constraint) || SameShape(mid, low))
  {
    if Ascending(low, mid, high) && Satisfies(low, constraint) && Satisfies(high, constraint)
       && !Unrestricted(constraint)
    {
      forall p | p in Words(Trim(constraint))
        ensures SatisfiesOne(mid, p) <==> !IsTilde(p) || SameShape(mid, low)
      {
        assert SatisfiesOne(low, p) && SatisfiesOne(high, p);
        OneConvexExactly(low, mid, high, p);
      }
    }
  }

  lemma OneConvexExactly(low: string, mid: string, high: string, p: string)
    requires Compare(low, mid) <= 0 && Compare(mid, high) <= 0 && SatisfiesOne(low, p) && SatisfiesOne(high, p)
    ensures SatisfiesOne(mid, p) <==> !IsTilde(p) || SameShape(mid, low)
  {
    if IsTilde(p) {
      TildeConvexExactly(low, mid, high, p, ReadConstraint(p).value.1);
    }
  }

  lemma TildeConvexExactly(low: string, mid: string, high: string, p: string, r: string)
    requires Compare(low, mid) <= 0 && Compare(mid, high) <= 0 && ReadConstraint(p) == Some((Tilde, r))
    requires SatisfiesOne(low, p) && SatisfiesOne(high, p)
    ensures SatisfiesOne(mid, p) <==> SameShape(mid, low)
  {
    assert TripleOf(low).major == TripleOf(r).major && TripleOf(low).minor == TripleOf(r).minor;
    assert TripleOf(high).major == TripleOf(r).major && TripleOf(high).minor == TripleOf(r).minor;
    assert TripleOf(mid).major == TripleOf(r).major && TripleOf(mid).minor == TripleOf(r).minor;
  }

  lemma OneDigit(c: char)
    requires IsDigit(c)
    ensures Split([c], {'.', '+', '-'}) == Split([c], {'.'}) == [[c]] && Trim([c]) == [c]
    ensures TripleOf([c]) == Triple(c as int - '0' as int, 0, 0)
  {
    assert [c][1..] == [];
    assert Split([], {'.', '+', '-'}) == Split([], {'.'}) == [[]];
    assert [c] + "" == [c];
    assert SkipBlanks([c]) == [c];
    assert LeadingDigits([c]) == [c] + LeadingDigits([]);
    assert [c][..0] == [] && Numeral([]) == 0;
    assert Numeral([c]) == c as int - '0' as int;
    assert Parts([c]) == [c as int - '0' as int];
  }

  lemma Wildcard(v: string)
    ensures Satisfies(v, "*")
  {
    assert Trim("*") == "*";
  }

  lemma OneDigitIsOneWord(c: char)
    requires IsDigit(c)
    ensures Trim([c]) == [c] && Words([c]) == [[c]] && !Unrestricted([c])
  {
    OneDigit(c);
    assert FirstWord([c]) == [c] && [c][1..] == [];
    assert Words([]) == [];
    assert Lower([c]) == [c] + Lower([]) == [c];
    assert |[c]| == 1 && [c][0] != '*';
  }

  lemma OneDigitIsExact(c: char)
    requires IsDigit(c)
    ensures ReadConstraint([c]) == Some((Exactly, [c]))
  {
    OneDigit(c);
    assert AllDigits([c]);
    assert DottedNumeral([c]);
  }

  /** A constraint of one digit admits, among versions of one digit, only its own. */
  lemma OneDigitConstraint(v: char, c: char)
    requires IsDigit(v) && IsDigit(c)
    ensures Satisfies([v], [c]) <==> v == c
  {
    OneDigit(v);
    OneDigit(c);
    OneDigitIsOneWord(c);
    OneDigitIsExact(c);
    assert SatisfiesOne([v], [c]) <==> v == c;
    assert [c] in Words(Trim([c]));
  }

  // ----- what `~` does not admit -----

  lemma SplitDot(c: char, rest: string, seps: set<char>)
    requires IsDigit(c) && '.' in seps && seps <= {'.', '+', '-'}
    ensures Split([c, '.'] + rest, seps) == [[c]] + Split(rest, seps)
  {
    var s := [c, '.'] + rest;
    assert s[1..] == ['.'] + rest && s[1..][1..] == rest;
    var t := Split(s[1..], seps);
    assert t == [[]] + Split(rest, seps);
    assert s[0] == c && c !in seps && [c] + t[0] == [c] && t[1..] == Split(rest, seps);
  }

  lemma DigitValue(c: char)
    requires IsDigit(c)
    ensures Numeral(LeadingDigits(SkipBlanks([c]))) == c as int - '0' as int
  {
    assert SkipBlanks([c]) == [c] && [c][1..] == [] && LeadingDigits([]) == [];
    assert LeadingDigits([c]) == [c];
    assert [c][..0] == [] && Numeral([]) == 0;
  }

  lemma SplitTwo(a: char, b: char, seps: set<char>)
    requires IsDigit(a) && IsDigit(b) && '.' in seps && seps <= {'.', '+', '-'}
    ensures Split([a, '.', b], seps) == [[a], [b]]
  {
    assert [b][1..] == [] && Split([], seps) == [[]];
    assert b !in seps && [b] + [] == [b];
    assert Split([b], seps) == [[b] + Split([], seps)[0]] + Split([], seps)[1..];
    SplitDot(a, [b], seps);
    assert [a, '.'] + [b] == [a, '.', b];
  }

  lemma PartsOfSplit(v: string, c: seq<string>)
    requires v != "" && v[0] !in {'v', 'V'} && Split(v, {'.', '+', '-'}) == c && |c| <= 3
    ensures Parts(v) == Numbers(c)
  {
  }

  lemma NumbersOfTwo(a: char, b: char)
    requires IsDigit(a) && IsDigit(b)
    ensures Numbers([[a], [b]]) == [a as int - '0' as int, b as int - '0' as int]
  {
    DigitValue(a);
    DigitValue(b);
  }

  /** A version of two single digits. */
  lemma TwoDigits(a: char, b: char)
    requires IsDigit(a) && IsDigit(b)
    ensures Parts([a, '.', b]) == [a as int - '0' as int, b as int - '0' as int]
  {
    SplitTwo(a, b, {'.', '+', '-'});
    PartsOfSplit([a, '.', b], [[a], [b]]);
    NumbersOfTwo(a, b);
  }

  lemma TwoDigitsRead(a: char, b: char)
    requires IsDigit(a) && IsDigit(b)
    ensures DottedNumeral([a, '.', b])
  {
    SplitTwo(a, b, {'.'});
    assert AllDigits([a]) && AllDigits([b]);
  }

  lemma OneDigitShape(a: char)
    requires IsDigit(a)
    ensures Second([a]) == None && TripleOf([a]) == Triple(a as int - '0' as int, 0, 0)
    ensures ReadConstraint(['~', a]) == Some((Tilde, [a]))
  {
    OneDigit(a);
    assert |Parts([a])| == 1;
    assert AllDigits([a]) && DottedNumeral([a]);
    assert ['~', a][1..] == [a];
  }

  lemma DotZeroShape(a: char)
    requires IsDigit(a)
    ensures Second([a, '.', '0']) == Some(0) && TripleOf([a, '.', '0']) == Triple(a as int - '0' as int, 0, 0)
    ensures ReadConstraint(['~', a, '.', '0']) == Some((Tilde, [a, '.', '0']))
  {
    TwoDigits(a, '0');
    TwoDigitsRead(a, '0');
    assert ['~', a, '.', '0'][1..] == [a, '.', '0'];
  }

  /** `~a` does not admit a.0, though it compares equal to the reference; nor does `~a.0` admit a. */
  lemma TildeMinds(a: char)
    requires IsDigit(a)
    ensures Compare([a], [a, '.', '0']) == 0
    ensures SatisfiesOne([a], ['~', a]) && !SatisfiesOne([a, '.', '0'], ['~', a])
    ensures SatisfiesOne([a, '.', '0'], ['~', a, '.', '0']) && !SatisfiesOne([a], ['~', a, '.', '0'])
  {
    OneDigitShape(a);
    DotZeroShape(a);
  }

  // ----- the marketplace's own update test -----

  function RawParts(version: string): seq<int> {
    Integers(Split(version, {'.'}))
  }

  function Integers(c: seq<string>): (r: seq<int>)
    ensures |r| == |c|
    ensures forall i :: 0 <= i < |c| ==> r[i] == ParseInt(c[i])
  {
    if c == [] then [] else [ParseInt(c[0])] + Integers(c[1..])
  }

  /** At the first position where the zero-padded lists differ, r is greater. */
  ghost predicate Ahead(r: seq<int>, s: seq<int>) {
    exists i: nat :: At(r, i) > At(s, i) && SamePrefix(r, s, i)
  }

  lemma AheadDecided(r: seq<int>, s: seq<int>, i: nat)
    requires SamePrefix(r, s, i) && At(r, i) != At(s, i)
    ensures Ahead(r, s) <==> At(r, i) > At(s, i)
  {
    if Ahead(r, s) {
      var j: nat :| At(r, j) > At(s, j) && SamePrefix(r, s, j);
      assert j < i ==> At(r, j) == At(s, j);
      assert i < j ==> At(r, i) == At(s, i);
    }
  }

  lemma NeverAhead(r: seq<int>, s: seq<int>, n: nat)
    requires |r| <= n && |s| <= n
    ensures SamePrefix(r, s, n) ==> !Ahead(r, s)
  {
    if SamePrefix(r, s, n) {
      forall i: nat ensures At(r, i) == At(s, i) {
        assert i < n ==> At(r, i) == At(s, i);
      }
    }
  }

  method HasUpdate(remote: string, installed: string) returns (hasUpdate: bool)
    ensures hasUpdate <==> Ahead(RawParts(remote), RawParts(installed))
  {
    hasUpdate := IsAhead(RawParts(remote), RawParts(installed));
  }

  method IsAhead(r: seq<int>, s: seq<int>) returns (hasUpdate: bool)
    ensures hasUpdate <==> Ahead(r, s)
  {
    hasUpdate := false;
    var n := if |r| > |s| then |r| else |s|;
    NeverAhead(r, s, n);
    for i := 0 to n
      invariant !hasUpdate && SamePrefix(r, s, i)
    {
      if At(r, i) > At(s, i) {
        hasUpdate := true;
        AheadDecided(r, s, i);
        break;
      }
      if At(r, i) < At(s, i) {
        hasUpdate := false;
        AheadDecided(r, s, i);
        break;
      }
    }
  }

  lemma {:induction false} DigitsReadAlike(s: string)
    requires s != [] && AllDigits(s)
    ensures ParseInt(s) == Numeral(LeadingDigits(SkipBlanks(s)))
  {
    assert s[0] in s;
  }

  /** On text made of digits and dots the wider separator set finds the same components. */
  lemma {:induction false} SplitAlike(s: string)
    requires forall d :: d in Split(s, {'.'}) ==> AllDigits(d)
    ensures Split(s, {'.', '+', '-'}) == Split(s, {'.'})
  {
    if s != [] {
      var rest := Split(s[1..], {'.'});
      var all := Split(s, {'.'});
      if s[0] == '.' {
        assert all == [[]] + rest;
        forall d | d in rest ensures AllDigits(d) { assert d in all; }
      } else {
        assert all[0] == [s[0]] + rest[0] && all[0] in all;
        assert s[0] in all[0];
        forall d | d in rest ensures AllDigits(d) {
          if d == rest[0] {
            assert forall c :: c in d ==> c in all[0];
          } else {
            assert d in rest[1..];
            assert d in all;
          }
        }
      }
      SplitAlike(s[1..]);
    }
  }

  lemma NumeralParts(s: string)
    requires s != "" && DottedNumeral(s)
    ensures |RawParts(s)| <= 3
    ensures TripleOf(s) == Triple(At(Parts(s), 0), At(Parts(s), 1), At(Parts(s), 2))
    ensures forall k: nat :: At(RawParts(s), k) == At(Parts(s), k)
  {
    var c := Split(s, {'.'});
    SplitAlike(s);
    FirstIsDigit(s);
    forall i | 0 <= i < |c| ensures RawParts(s)[i] == Parts(s)[i] {
      assert c[i] in c;
      DigitsReadAlike(c[i]);
    }
  }

  lemma FirstIsDigit(s: string)
    requires s != "" && DottedNumeral(s)
    ensures IsDigit(s[0])
  {
    var c := Split(s, {'.'});
    assert c[0] in c;
    assert c[0][0] in c[0];
  }

  lemma AheadOfThree(r: seq<int>, s: seq<int>)
    requires |r| <= 3 && |s| <= 3
    ensures Ahead(r, s) <==> LexLess(s, r)
  {
    if At(r, 0) != At(s, 0) {
      AheadDecided(r, s, 0);
    } else if At(r, 1) != At(s, 1) {
      AheadDecided(r, s, 1);
    } else if At(r, 2) != At(s, 2) {
      AheadDecided(r, s, 2);
    } else {
      assert forall i: nat :: At(r, i) == At(s, i);
    }
  }

  /** On dotted numerals of at most three parts the marketplace agrees with the resolver's comparison. */
  lemma UpdateTestAgrees(remote: string, installed: string)
    requires remote != "" && installed != "" && DottedNumeral(remote) && DottedNumeral(installed)
    ensures Ahead(RawParts(remote), RawParts(installed)) <==> Compare(remote, installed) > 0
  {
    NumeralParts(remote);
    NumeralParts(installed);
    AheadOfThree(RawParts(remote), RawParts(installed));
    LessByParts(installed, remote);
    LessByParts(remote, installed);
  }
}
