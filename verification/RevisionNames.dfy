/**
 Names of single revisions: a base, followed by any number of `^` and `~` suffixes.
 */
module RevisionNames {
  import opened Wrappers
  import opened Ancestry

  datatype Error = InvalidSpec | NotFound | UnbornBranch | WrongObjectType

  /** What a reference stands for once its symbolic links are followed. */
  datatype Reference = Direct(target: Oid) | Dangling

  /** `references` are the names that stand for references, `objects` the names and abbreviated
      ids that find an object. */
  datatype Repository = Repository(
    store: map<Oid, Object>, references: map<string, Reference>, objects: map<string, Oid>, branch: string, born: bool)

  const SIZE_LIMIT: nat := 0x1_0000_0000_0000_0000

  /** What a `size_t` keeps of a number. */
  function Wrap(n: nat): (r: nat)
    ensures r < SIZE_LIMIT
  {
    if n < SIZE_LIMIT then n else Wrap(n - SIZE_LIMIT)
  }

  predicate IsDigit(c: char) {
    '0' <= c <= '9'
  }

  function DigitValue(c: char): nat {
    if IsDigit(c) then (c - '0') as nat else 0
  }

  /** The value of a run of decimal digits. */
  function Decimal(s: string): nat {
    if s == "" then 0 else Decimal(s[..|s| - 1]) * 10 + DigitValue(s[|s| - 1])
  }

  /** Where the run of digits that starts at `i` ends. */
  function DigitsEnd(s: string, i: nat): (j: nat)
    requires i <= |s|
    ensures i <= j <= |s|
    decreases |s| - i
  {
    if i == |s| || !IsDigit(s[i]) then i else DigitsEnd(s, i + 1)
  }

  /** The number in a run of digits, as far as a `size_t` holds it; a missing number means one. */
  function Number(s: string): nat {
    if s == "" then 1 else Wrap(Decimal(s))
  }

  /** Addition of `size_t` values. */
  function Add(a: nat, b: nat): nat {
    Wrap(a + b)
  }

  lemma {:induction false} WrapSum(a: nat, b: nat)
    ensures Add(Wrap(a), b) == Wrap(a + b)
    decreases a
  {
    if a >= SIZE_LIMIT {
      WrapSum(a - SIZE_LIMIT, b);
    }
  }

  lemma {:induction false} WrapIsModulo(n: nat)
    ensures Wrap(n) == n % SIZE_LIMIT
    decreases n
  {
    if n >= SIZE_LIMIT {
      WrapIsModulo(n - SIZE_LIMIT);
    }
  }

  /** Exact addition. */
  function Plus(a: nat, b: nat): nat {
    a + b
  }

  lemma WrapStep(wrapped: nat, exact: nat, b: nat)
    requires wrapped == Wrap(exact)
    ensures Add(wrapped, b) == Wrap(Plus(exact, b))
  {
    WrapSum(exact, b);
  }

  lemma {:induction false} WrapMultiple(a: nat, k: nat)
    ensures Wrap(a + k * SIZE_LIMIT) == Wrap(a)
  {
    if k == 0 {
    } else {
      WrapMultiple(a, k - 1);
    }
  }

  lemma {:induction false} WrapTimes(a: nat, k: nat)
    ensures Wrap(Wrap(a) * k) == Wrap(a * k)
    decreases a
  {
    if a >= SIZE_LIMIT {
      WrapTimes(a - SIZE_LIMIT, k);
      assert a * k == (a - SIZE_LIMIT) * k + k * SIZE_LIMIT;
      WrapMultiple((a - SIZE_LIMIT) * k, k);
    }
  }

  /** Wrapping after each digit is wrapping once. */
  lemma WrapDigit(value: nat, digit: nat)
    ensures Add(Wrap(Wrap(value) * 10), digit) == Wrap(value * 10 + digit)
  {
    WrapTimes(value, 10);
    WrapSum(value * 10, digit);
  }

  lemma OneMoreDigit(s: string, digit: char)
    ensures Decimal(s + [digit]) == Decimal(s) * 10 + DigitValue(digit)
  {
    assert (s + [digit])[..|s|] == s;
  }

  lemma NumberStep(text: string, from: nat, next: nat, number: nat)
    requires from <= next < |text| && number == Wrap(Decimal(text[from..next]))
    ensures Add(Wrap(number * 10), DigitValue(text[next])) == Wrap(Decimal(text[from..next + 1]))
  {
    assert text[from..next + 1] == text[from..next] + [text[next]];
    OneMoreDigit(text[from..next], text[next]);
    WrapDigit(Decimal(text[from..next]), DigitValue(text[next]));
  }

  method GetNumber(text: string, from: nat) returns (next: nat, number: nat)
    requires from <= |text|
    ensures next == DigitsEnd(text, from) && number == Number(text[from..next])
  {
    next := from;
    if next == |text| {
      return next, 1;
    }
    if !IsDigit(text[next]) {
      return next, 1;
    }
    number := 0;
    while next != |text| && IsDigit(text[next])
      invariant from <= next <= |text| && DigitsEnd(text, next) == DigitsEnd(text, from)
      invariant number == Wrap(Decimal(text[from..next]))
      decreases |text| - next
    {
      NumberStep(text, from, next, number);
      number := Wrap(number * 10);
      number := Add(number, DigitValue(text[next]));
      next := next + 1;
    }
  }

  // ---------------------------------------------------------------------------
  // Suffixes

  datatype Suffix = Parent(digits: string) | Ancestor(digits: string) {
    static function From(mark: char, digits: string): Suffix {
      if mark == '^' then Parent(digits) else Ancestor(digits)
    }

    function Mark(): char {
      if Parent? then '^' else '~'
    }
  }

  predicate AllDigits(s: string) {
    forall i | 0 <= i < |s| :: IsDigit(s[i])
  }

  predicate WellFormed(suffixes: seq<Suffix>) {
    suffixes == [] || (AllDigits(suffixes[0].digits) && WellFormed(suffixes[1..]))
  }

  function Spell(suffixes: seq<Suffix>): string {
    if suffixes == [] then ""
    else [suffixes[0].Mark()] + suffixes[0].digits + Spell(suffixes[1..])
  }

  /** A second parent does not exist. */
  predicate Impossible(s: Suffix) {
    s.Parent? && Number(s.digits) > 1
  }

  predicate Possible(suffixes: seq<Suffix>) {
    suffixes == [] || (!Impossible(suffixes[0]) && Possible(suffixes[1..]))
  }

  /** How far back the suffixes lead. */
  function Distance(suffixes: seq<Suffix>): nat {
    if suffixes == [] then 0 else Number(suffixes[0].digits) + Distance(suffixes[1..])
  }

  predicate IsMark(c: char) {
    c == '^' || c == '~'
  }

  /** Where the base of a revision ends: at the first suffix. */
  function BaseEnd(rev: string, i: nat): (n: nat)
    requires i <= |rev|
    ensures i <= n <= |rev|
    decreases |rev| - i
  {
    if i == |rev| || IsMark(rev[i]) then i else BaseEnd(rev, i + 1)
  }

  datatype Total = Total(steps: nat) | Refused(error: Error)

  /** Adds up the suffixes of a text from position `i` on. */
  function Scan(rev: string, i: nat): (r: Total)
    requires i <= |rev|
    ensures r.Refused? ==> r.error == InvalidSpec || r.error == NotFound
    decreases |rev| - i
  {
    if i == |rev| then Total(0)
    else if !IsMark(rev[i]) then Refused(InvalidSpec)
    else
      var j := DigitsEnd(rev, i + 1);
      Counted(Suffix.From(rev[i], rev[i + 1..j]), Scan(rev, j))
  }

  /** One suffix in front of others. */
  function Counted(s: Suffix, later: Total): Total {
    if Impossible(s) then Refused(NotFound)
    else if later.Refused? then later
    else Total(Number(s.digits) + later.steps)
  }

  lemma {:induction false} DigitsEndIs(s: string, i: nat, j: nat)
    requires i <= j <= |s| && AllDigits(s[i..j]) && (j < |s| ==> !IsDigit(s[j]))
    ensures DigitsEnd(s, i) == j
    decreases j - i
  {
    if i < j {
      assert s[i] == s[i..j][0];
      assert s[i + 1..j] == s[i..j][1..];
      DigitsEndIs(s, i + 1, j);
    }
  }

  lemma {:induction false} DigitsEndFacts(s: string, i: nat)
    requires i <= |s|
    ensures AllDigits(s[i..DigitsEnd(s, i)]) && (DigitsEnd(s, i) < |s| ==> !IsDigit(s[DigitsEnd(s, i)]))
    decreases |s| - i
  {
    if i < |s| && IsDigit(s[i]) {
      DigitsEndFacts(s, i + 1);
      DigitInFront(s, i, DigitsEnd(s, i));
    }
  }

  lemma DigitInFront(s: string, i: nat, j: nat)
    requires i < j <= |s| && IsDigit(s[i]) && AllDigits(s[i + 1..j])
    ensures AllDigits(s[i..j])
  {
    forall k | 0 <= k < j - i
      ensures IsDigit(s[i..j][k])
    {
      if k > 0 {
        assert s[i..j][k] == s[i + 1..j][k - 1];
      }
    }
  }

  /** A suffix at position `i`, up to `j`. */
  lemma ScanSuffix(rev: string, i: nat, s: Suffix, j: nat)
    requires i < j <= |rev| && rev[i..j] == [s.Mark()] + s.digits && AllDigits(s.digits) && (j < |rev| ==> !IsDigit(rev[j]))
    ensures Scan(rev, i) == Counted(s, Scan(rev, j))
  {
    assert rev[i] == rev[i..j][0];
    assert rev[i + 1..j] == rev[i..j][1..] == s.digits;
    DigitsEndIs(rev, i + 1, j);
  }

  /** Spelled-out suffixes scan to their distance. */
  lemma {:induction false} ScanSpelled(rev: string, i: nat, suffixes: seq<Suffix>)
    requires i <= |rev| && rev[i..] == Spell(suffixes) && WellFormed(suffixes)
    ensures Scan(rev, i) == if Possible(suffixes) then Total(Distance(suffixes)) else Refused(NotFound)
    decreases |suffixes|
  {
    if suffixes == [] {
    } else {
      var s, rest := suffixes[0], suffixes[1..];
      var j := i + 1 + |s.digits|;
      assert rev[i..j] == rev[i..][..j - i] == [s.Mark()] + s.digits;
      assert rev[j..] == rev[i..][j - i..] == Spell(rest);
      if j < |rev| {
        assert rev[j] == rev[j..][0];
      }
      ScanSuffix(rev, i, s, j);
      ScanSpelled(rev, j, rest);
    }
  }

  /** The text is the suffixes and something behind them that is none. */
  predicate Reads(rev: string, i: nat, suffixes: seq<Suffix>, rest: string)
    requires i <= |rev|
  {
    rev[i..] == Spell(suffixes) + rest && WellFormed(suffixes) && (rest != "" ==> !IsMark(rest[0]))
  }

  lemma SplitAt(rev: string, i: nat, j: nat)
    requires i < j <= |rev|
    ensures rev[i..] == [rev[i]] + rev[i + 1..j] + rev[j..]
  {
  }

  lemma SpellCons(first: Suffix, later: seq<Suffix>, rest: string)
    ensures Spell([first] + later) + rest == [first.Mark()] + first.digits + (Spell(later) + rest)
  {
    assert ([first] + later)[1..] == later;
  }

  lemma ReadsCons(rev: string, i: nat, later: seq<Suffix>, rest: string)
    requires i < |rev| && IsMark(rev[i]) && Reads(rev, DigitsEnd(rev, i + 1), later, rest)
    ensures Reads(rev, i, [Suffix.From(rev[i], rev[i + 1..DigitsEnd(rev, i + 1)])] + later, rest)
  {
    var j := DigitsEnd(rev, i + 1);
    var first := Suffix.From(rev[i], rev[i + 1..j]);
    SplitAt(rev, i, j);
    SpellCons(first, later, rest);
    assert WellFormed([first] + later) by {
      DigitsEndFacts(rev, i + 1);
      assert ([first] + later)[1..] == later;
    }
  }

  /** Every text is some suffixes and, where it is invalid, something behind them that is none. */
  lemma {:induction false} ScanReads(rev: string, i: nat) returns (suffixes: seq<Suffix>, rest: string)
    requires i <= |rev|
    ensures Reads(rev, i, suffixes, rest)
    ensures Scan(rev, i).Total? <==> rest == "" && Possible(suffixes)
    ensures Scan(rev, i) == Refused(NotFound) <==> !Possible(suffixes)
    decreases |rev| - i
  {
    if i == |rev| || !IsMark(rev[i]) {
      suffixes, rest := [], rev[i..];
    } else {
      var j := DigitsEnd(rev, i + 1);
      var first := Suffix.From(rev[i], rev[i + 1..j]);
      var later;
      later, rest := ScanReads(rev, j);
      ReadsCons(rev, i, later, rest);
      suffixes := [first] + later;
      assert suffixes[1..] == later;
    }
  }

  // ---------------------------------------------------------------------------
  // Revisions

  function BaseObject(repo: Repository, base: string): Result<Oid, Error> {
    if base in repo.references then
      match repo.references[base]
      case Direct(target) => Success(target)
      case Dangling => Failure(if (base == "HEAD" || base == repo.branch) && !repo.born then UnbornBranch else NotFound)
    else if base in repo.objects then Success(repo.objects[base])
    else Failure(NotFound)
  }

  datatype Parsed = Parsed(error: Option<Error>, oid: Oid)

  /** What a revision stands for; `before` is left alone when the text is no revision at all. */
  function Meaning(repo: Repository, rev: string, before: Oid): Parsed {
    var n := BaseEnd(rev, 0);
    match Scan(rev, n)
    case Refused(error) => Parsed(Some(error), if error == NotFound then ZERO else before)
    case Total(total) =>
      var count := Wrap(total);
      match BaseObject(repo, rev[..n])
      case Failure(error) => Parsed(Some(error), ZERO)
      case Success(oid) =>
        if count == 0 then Parsed(None, oid)
        else if !IsReport(repo.store, oid) then Parsed(Some(WrongObjectType), oid)
        else Parsed(None, Nth(repo.store, oid, count))
  }

  method ParseSingle(repo: Repository, rev: string, before: Oid) returns (error: Option<Error>, out: Oid)
    requires IsStore(repo.store)
    ensures Parsed(error, out) == Meaning(repo, rev, before)
  {
    out := before;
    var count, it := CountParents(rev);
    if count.Refused? {
      if count.error == NotFound {
        out := ZERO;
      }
      return Some(count.error), out;
    }
    var base := rev[..it];
    if base in repo.references {
      if repo.references[base].Dangling? {
        out := ZERO;
        if (base == "HEAD" || base == repo.branch) && !repo.born {
          return Some(UnbornBranch), out;
        }
        return Some(NotFound), out;
      }
      out := repo.references[base].target;
    } else {
      if base !in repo.objects {
        return Some(NotFound), ZERO;
      }
      out := repo.objects[base];
    }
    if count.steps != 0 {
      if !IsReport(repo.store, out) {
        return Some(WrongObjectType), out;
      }
      out := Climb(repo.store, out, count.steps);
    }
    error := None;
  }

  method FindBase(rev: string) returns (base: nat)
    ensures base == BaseEnd(rev, 0)
  {
    base := 0;
    while base != |rev| && !IsMark(rev[base])
      invariant 0 <= base <= |rev| && BaseEnd(rev, 0) == BaseEnd(rev, base)
      decreases |rev| - base
    {
      base := base + 1;
    }
  }

  function Wrapped(r: Total): Total {
    if r.Refused? then r else Total(Wrap(r.steps))
  }

  /** `sum` in front of what is still to be scanned. */
  function After(sum: nat, r: Total): Total {
    if r.Refused? then r else Total(sum + r.steps)
  }

  lemma ScanStep(rev: string, it: nat, sum: nat)
    requires it < |rev|
    ensures var next := DigitsEnd(rev, it + 1);
            var number := Number(rev[it + 1..next]);
            After(sum, Scan(rev, it)) ==
            if !IsMark(rev[it]) then Refused(InvalidSpec)
            else if rev[it] == '^' && number > 1 then Refused(NotFound)
            else After(Plus(sum, number), Scan(rev, next))
  {
  }

  /** The loop over the suffixes; `base` is where they start. */
  method CountParents(rev: string) returns (count: Total, base: nat)
    ensures base == BaseEnd(rev, 0) && count == Wrapped(Scan(rev, base))
  {
    base := FindBase(rev);
    var it := base;
    var parents: nat := 0;
    ghost var sum: nat := 0;
    ghost var all := Scan(rev, base);
    while it != |rev|
      invariant base <= it <= |rev| && After(sum, Scan(rev, it)) == all && parents == Wrap(sum)
      decreases |rev| - it
    {
      ScanStep(rev, it, sum);
      if rev[it] == '^' {
        var next, number := GetNumber(rev, it + 1);
        if number > 1 {
          return Refused(NotFound), base;
        }
        WrapStep(parents, sum, number);
        parents, sum := Add(parents, number), Plus(sum, number);
        it := next;
      } else if rev[it] == '~' {
        var next, number := GetNumber(rev, it + 1);
        WrapStep(parents, sum, number);
        parents, sum := Add(parents, number), Plus(sum, number);
        it := next;
      } else {
        return Refused(InvalidSpec), base;
      }
    }
    count := Total(parents);
  }

  /** Follows parents until the root or `count` steps. */
  method Climb(store: map<Oid, Object>, start: Oid, count: nat) returns (node: Oid)
    requires IsStore(store)
    ensures node == Nth(store, start, count)
  {
    node := start;
    var left: nat := count;
    while node != ZERO && left != 0
      invariant left <= count && node == Nth(store, start, count - left)
      decreases left
    {
      left := left - 1;
      node := Next(store, node);
    }
    if node == ZERO {
      PastTheRoot(store, start, count - left, count);
    }
  }

  // ---------------------------------------------------------------------------
  // What suffixes mean

  /** A base and suffixes; no base holds the mark of a suffix. */
  predicate Spelled(rev: string, base: string, suffixes: seq<Suffix>) {
    rev == base + Spell(suffixes) && WellFormed(suffixes) && forall i | 0 <= i < |base| :: !IsMark(base[i])
  }

  lemma {:induction false} BaseEndIs(rev: string, i: nat, n: nat)
    requires i <= n <= |rev| && (forall k | i <= k < n :: !IsMark(rev[k])) && (n < |rev| ==> IsMark(rev[n]))
    ensures BaseEnd(rev, i) == n
    decreases n - i
  {
    if i < n {
      BaseEndIs(rev, i + 1, n);
    }
  }

  lemma {:induction false} BaseEndFacts(rev: string, i: nat)
    requires i <= |rev|
    ensures forall k | i <= k < BaseEnd(rev, i) :: !IsMark(rev[k])
    decreases |rev| - i
  {
    if i < |rev| && !IsMark(rev[i]) {
      BaseEndFacts(rev, i + 1);
    }
  }

  /** Suffixes on a base that names a report give its ancestor at the sum of their distances, or
      nothing past the root. */
  lemma SuffixesAddUp(repo: Repository, rev: string, base: string, suffixes: seq<Suffix>, oid: Oid, before: Oid)
    requires Spelled(rev, base, suffixes) && BaseObject(repo, base) == Success(oid) && IsReport(repo.store, oid)
    ensures Meaning(repo, rev, before) ==
            if Possible(suffixes) then Parsed(None, Nth(repo.store, oid, Wrap(Distance(suffixes))))
            else Parsed(Some(NotFound), ZERO)
  {
    assert rev[..|base|] == base && rev[|base|..] == Spell(suffixes);
    BaseEndIs(rev, 0, |base|);
    ScanSpelled(rev, |base|, suffixes);
  }

  /** A mark without a number is one step: both `^` and `~` lead to the parent. No number of steps is
      the report itself, and a second parent is not there. */
  lemma OneStep(repo: Repository, base: string, oid: Oid, before: Oid)
    requires (forall i | 0 <= i < |base| :: !IsMark(base[i]))
    requires BaseObject(repo, base) == Success(oid) && IsReport(repo.store, oid)
    ensures Meaning(repo, base, before) == Parsed(None, oid)
    ensures Meaning(repo, base + "^", before) == Parsed(None, repo.store[oid].parent)
    ensures Meaning(repo, base + "~", before) == Parsed(None, repo.store[oid].parent)
    ensures Meaning(repo, base + "^0", before) == Parsed(None, oid)
    ensures Meaning(repo, base + "^2", before) == Parsed(Some(NotFound), ZERO)
  {
    SmallNumbers();
    NoSuffix(repo, base, oid, before);
    assert Nth(repo.store, oid, 0) == oid && Nth(repo.store, oid, 1) == Next(repo.store, oid);
    hide Meaning, Number, Wrap, Nth, BaseObject;
    OneSuffix(repo, base, Parent(""), oid, before);
    assert ['^'] + "" == "^";
    OneSuffix(repo, base, Ancestor(""), oid, before);
    assert ['~'] + "" == "~";
    OneSuffix(repo, base, Parent("0"), oid, before);
    assert ['^'] + "0" == "^0";
    OneSuffix(repo, base, Parent("2"), oid, before);
    assert ['^'] + "2" == "^2";
  }

  lemma SmallNumbers()
    ensures Number("") == 1 && Number("0") == 0 && Number("2") == 2 && Wrap(0) == 0 && Wrap(1) == 1
  {
    OneMoreDigit("", '0');
    OneMoreDigit("", '2');
    assert "" + ['0'] == "0" && "" + ['2'] == "2";
  }

  lemma NoSuffix(repo: Repository, base: string, oid: Oid, before: Oid)
    requires (forall i | 0 <= i < |base| :: !IsMark(base[i]))
    requires BaseObject(repo, base) == Success(oid) && IsReport(repo.store, oid)
    ensures Meaning(repo, base, before) == Parsed(None, oid)
  {
    assert base + Spell([]) == base && Nth(repo.store, oid, 0) == oid;
    SuffixesAddUp(repo, base, base, [], oid, before);
  }

  lemma OneSuffix(repo: Repository, base: string, s: Suffix, oid: Oid, before: Oid)
    requires (forall i | 0 <= i < |base| :: !IsMark(base[i])) && AllDigits(s.digits)
    requires BaseObject(repo, base) == Success(oid) && IsReport(repo.store, oid)
    ensures Meaning(repo, base + ([s.Mark()] + s.digits), before) ==
            if Impossible(s) then Parsed(Some(NotFound), ZERO) else Parsed(None, Nth(repo.store, oid, Wrap(Number(s.digits))))
  {
    assert [s][1..] == [];
    assert Spell([s]) == [s.Mark()] + s.digits;
    SuffixesAddUp(repo, base + Spell([s]), base, [s], oid, before);
  }

  /** A name without suffixes is that of a reference, or else of an object. */
  lemma NamesResolve(repo: Repository, name: string, before: Oid)
    requires forall i | 0 <= i < |name| :: !IsMark(name[i])
    ensures Meaning(repo, name, before) ==
            if name in repo.references && repo.references[name].Direct? then Parsed(None, repo.references[name].target)
            else if name in repo.references then
              Parsed(Some(if name in {"HEAD", repo.branch} && !repo.born then UnbornBranch else NotFound), ZERO)
            else if name in repo.objects then Parsed(None, repo.objects[name])
            else Parsed(Some(NotFound), ZERO)
  {
    BaseEndIs(name, 0, |name|);
    assert name[..|name|] == name;
  }

  /** Two spellings with the same sum name the same report. */
  lemma EqualSums(repo: Repository, base: string, a: seq<Suffix>, b: seq<Suffix>, oid: Oid, before: Oid)
    requires Spelled(base + Spell(a), base, a) && Spelled(base + Spell(b), base, b) && Possible(a) && Possible(b)
    requires BaseObject(repo, base) == Success(oid) && IsReport(repo.store, oid)
    requires Wrap(Distance(a)) == Wrap(Distance(b))
    ensures Meaning(repo, base + Spell(a), before) == Meaning(repo, base + Spell(b), before)
  {
    SuffixesAddUp(repo, base + Spell(a), base, a, oid, before);
    SuffixesAddUp(repo, base + Spell(b), base, b, oid, before);
  }

  /** A number beyond `size_t` wraps: this "second parent" is taken for the first one. */
  lemma HugeParentWraps(digits: string)
    requires digits != "" && Decimal(digits) == SIZE_LIMIT + 1
    ensures Possible([Parent(digits)]) && Distance([Parent(digits)]) == 1
  {
    assert Wrap(SIZE_LIMIT + 1) == Wrap(1);
    assert [Parent(digits)][1..] == [];
  }

  lemma FourMoreDigits(s: string, value: nat, four: string, t: string, number: nat)
    requires Decimal(s) == value && |four| == 4 && t == s + four
    requires number == value * 10000 + DigitValue(four[0]) * 1000 + DigitValue(four[1]) * 100 +
                       DigitValue(four[2]) * 10 + DigitValue(four[3])
    ensures Decimal(t) == number
  {
    OneMoreDigit(s, four[0]);
    OneMoreDigit(s + [four[0]], four[1]);
    OneMoreDigit(s + [four[0]] + [four[1]], four[2]);
    OneMoreDigit(s + [four[0]] + [four[1]] + [four[2]], four[3]);
    assert t == s + [four[0]] + [four[1]] + [four[2]] + [four[3]];
  }

  /** Such a number, 2^64 + 1. */
  lemma HugeParent()
    ensures Possible([Parent("18446744073709551617")]) && Distance([Parent("18446744073709551617")]) == 1
  {
    FourMoreDigits("", 0, "1844", "1844", 1844);
    FourMoreDigits("1844", 1844, "6744", "18446744", 18446744);
    FourMoreDigits("18446744", 18446744, "0737", "184467440737", 184467440737);
    FourMoreDigits("184467440737", 184467440737, "0955", "1844674407370955", 1844674407370955);
    FourMoreDigits("1844674407370955", 1844674407370955, "1617", "18446744073709551617", 18446744073709551617);
    HugeParentWraps("18446744073709551617");
  }

  /** A text is refused as no revision exactly if something that is no suffix follows the possible ones. */
  lemma InvalidText(repo: Repository, rev: string, before: Oid) returns (base: string, suffixes: seq<Suffix>, rest: string)
    ensures rev == base + Spell(suffixes) + rest && WellFormed(suffixes) && forall i | 0 <= i < |base| :: !IsMark(base[i])
    ensures Meaning(repo, rev, before).error == Some(InvalidSpec) <==> rest != "" && Possible(suffixes)
    ensures Meaning(repo, rev, before).error == Some(InvalidSpec) ==> !IsMark(rest[0]) && Meaning(repo, rev, before).oid == before
  {
    var n := BaseEnd(rev, 0);
    base := rev[..n];
    suffixes, rest := ScanReads(rev, n);
    assert rev == base + Spell(suffixes) + rest by {
      assert rev == base + (Spell(suffixes) + rest);
    }
    assert forall i | 0 <= i < |base| :: !IsMark(base[i]) by {
      BaseEndFacts(rev, 0);
    }
    InvalidIsScanned(repo, rev, before);
  }

  lemma InvalidIsScanned(repo: Repository, rev: string, before: Oid)
    ensures Meaning(repo, rev, before).error == Some(InvalidSpec) <==> Scan(rev, BaseEnd(rev, 0)) == Refused(InvalidSpec)
    ensures Meaning(repo, rev, before).error == Some(InvalidSpec) ==> Meaning(repo, rev, before).oid == before
  {
    assert BaseObject(repo, rev[..BaseEnd(rev, 0)]) != Failure(InvalidSpec);
  }
}
