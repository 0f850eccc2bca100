/** Automatic member numbers: a prefix and the largest numeric suffix in use plus one. */
module MemberNumbers {
  import opened Prelude
  import opened Decimals

  datatype Error = SuffixTooLarge | NumberTaken

  type Generator = seq<string> -> Result<string, Error>

  const MAX_INTEGER := 2_147_483_647
  const DEFAULT_PREFIX := "SOC-"

  /** The database's LIKE: % stands for any text, _ for any character, and a backslash for the character after it. */
  predicate Like(pattern: string, s: string)
    decreases |pattern| + |s|
  {
    if pattern == "" then s == ""
    else if pattern[0] == '%' then Like(pattern[1..], s) || (s != "" && Like(pattern, s[1..]))
    else if pattern[0] == '_' then s != "" && Like(pattern[1..], s[1..])
    else if pattern[0] == '\\' && |pattern| > 1 then s != "" && s[0] == pattern[1] && Like(pattern[2..], s[1..])
    else s != "" && s[0] == pattern[0] && Like(pattern[1..], s[1..])
  }

  function SuffixOf(number: string, prefix: string): string {
    if |number| <= |prefix| then "" else number[|prefix|..]
  }

  /** The rows that the query takes the maximum over. */
  predicate IsCounted(number: string, prefix: string) {
    Like(prefix + "%", number) && SuffixOf(number, prefix) != "" && AllDigits(SuffixOf(number, prefix))
  }

  function SuffixIn(prefix: string): string -> Option<nat> {
    (number: string) => if IsCounted(number, prefix) then Some(ValueOf(SuffixOf(number, prefix))) else None
  }

  /** The largest of the numbers' suffixes, zero if there is none; a suffix that is no 32-bit integer is an error. */
  function MaxOf(numbers: seq<string>, suffix: string -> Option<nat>): (r: Result<nat, Error>)
    ensures r.Failure? ==> r.error == SuffixTooLarge
  {
    if numbers == [] then Success(0)
    else
      match MaxOf(numbers[..|numbers| - 1], suffix)
      case Failure(e) => Failure(e)
      case Success(max) =>
        match suffix(numbers[|numbers| - 1])
        case None => Success(max)
        case Some(value) => if value > MAX_INTEGER then Failure(SuffixTooLarge) else Success(Max(value, max))
  }

  function MaxSuffix(numbers: seq<string>, prefix: string): (r: Result<nat, Error>)
    ensures r.Failure? ==> r.error == SuffixTooLarge
  {
    MaxOf(numbers, SuffixIn(prefix))
  }

  /** The configured prefix, already trimmed, or the default one. */
  function PrefixOf(configured: string): string {
    if configured == "" then DEFAULT_PREFIX else configured
  }

  function Candidate(prefix: string, suffix: nat): string {
    prefix + PadStart(ToDecimal(suffix), 4)
  }

  function GenerateMemberNumber(numbers: seq<string>, configured: string): Result<string, Error> {
    var prefix := PrefixOf(configured);
    match MaxSuffix(numbers, prefix)
    case Failure(e) => Failure(e)
    case Success(max) =>
      var candidate := Candidate(prefix, max + 1);
      if candidate in numbers then Failure(NumberTaken) else Success(candidate)
  }

  // ----- what the maximum says -----

  lemma {:induction false} AnythingMatches(s: string)
    ensures Like("%", s)
  {
    if s != "" { AnythingMatches(s[1..]); }
  }

  /** A text that starts with the prefix matches it, wildcards included, as long as nothing is escaped. */
  lemma {:induction false} PrefixMatches(prefix: string, rest: string)
    requires '\\' !in prefix
    ensures Like(prefix + "%", prefix + rest)
  {
    if prefix == "" {
      AnythingMatches(rest);
      assert prefix + "%" == "%" && prefix + rest == rest;
    } else {
      PrefixMatches(prefix[1..], rest);
      var pattern, s := prefix + "%", prefix + rest;
      assert pattern[1..] == prefix[1..] + "%" && s[1..] == prefix[1..] + rest;
      assert pattern[0] == s[0] == prefix[0];
      if prefix[0] == '%' {
        AbsorbOne(pattern, s);
      }
    }
  }

  lemma AbsorbOne(pattern: string, s: string)
    requires pattern != "" && pattern[0] == '%' && s != "" && Like(pattern[1..], s[1..])
    ensures Like(pattern, s)
  {
    assert Like(pattern, s[1..]);
  }

  /** What the query answers: the largest suffix there is or zero, and an error exactly when one is too large. */
  lemma {:induction false} MaxOfIs(numbers: seq<string>, suffix: string -> Option<nat>)
    ensures MaxOf(numbers, suffix).Success? <==>
            forall number <- numbers :: suffix(number).Some? ==> suffix(number).value <= MAX_INTEGER
    ensures MaxOf(numbers, suffix).Success? ==>
              var max := MaxOf(numbers, suffix).value;
              && (forall number <- numbers :: suffix(number).Some? ==> suffix(number).value <= max)
              && (max == 0 || exists number <- numbers :: suffix(number) == Some(max))
  {
    if numbers != [] {
      var init, last := numbers[..|numbers| - 1], numbers[|numbers| - 1];
      MaxOfIs(init, suffix);
      assert numbers == init + [last];
      assert forall number :: number in numbers <==> number in init || number == last;
    }
  }

  /** The same for the prefix: the maximum over the numbers that the pattern finds and whose rest is digits. */
  lemma MaxSuffixIs(numbers: seq<string>, prefix: string)
    ensures MaxSuffix(numbers, prefix).Success? <==>
            forall n <- numbers | IsCounted(n, prefix) :: ValueOf(SuffixOf(n, prefix)) <= MAX_INTEGER
    ensures MaxSuffix(numbers, prefix).Success? ==>
              var max := MaxSuffix(numbers, prefix).value;
              && (forall n <- numbers | IsCounted(n, prefix) :: ValueOf(SuffixOf(n, prefix)) <= max)
              && (max == 0 || exists n <- numbers :: IsCounted(n, prefix) && ValueOf(SuffixOf(n, prefix)) == max)
  {
    MaxOfIs(numbers, SuffixIn(prefix));
    assert forall n :: SuffixIn(prefix)(n).Some? <==> IsCounted(n, prefix);
  }

  lemma MaxOfOneMore(numbers: seq<string>, suffix: string -> Option<nat>, number: string, max: nat)
    requires MaxOf(numbers, suffix) == Success(max) && suffix(number) == Some(max + 1) && max + 1 <= MAX_INTEGER
    ensures MaxOf(numbers + [number], suffix) == Success(max + 1)
  {
    assert (numbers + [number])[..|numbers|] == numbers;
  }

  lemma CandidateReadsBack(prefix: string, suffix: nat)
    ensures
      var digits := SuffixOf(Candidate(prefix, suffix), prefix);
      digits != "" && AllDigits(digits) && ValueOf(digits) == suffix
  {
    var digits := PadStart(ToDecimal(suffix), 4);
    PaddedReadBack(suffix, 4);
    assert SuffixOf(prefix + digits, prefix) == digits;
  }

  /** A number is the prefix and then the suffix with at least four digits. */
  lemma CandidateLooks(prefix: string, suffix: nat)
    ensures
      var number := Candidate(prefix, suffix);
      && prefix <= number && |number| == |prefix| + Max(4, |ToDecimal(suffix)|)
      && AllDigits(number[|prefix|..]) && ValueOf(number[|prefix|..]) == suffix
  {
    PaddedReadBack(suffix, 4);
  }

  lemma CandidateIsCounted(prefix: string, suffix: nat)
    requires '\\' !in prefix
    ensures IsCounted(Candidate(prefix, suffix), prefix)
  {
    CandidateReadsBack(prefix, suffix);
    PrefixMatches(prefix, PadStart(ToDecimal(suffix), 4));
  }

  /** The query's pattern finds the number with this suffix again. */
  predicate Finds(prefix: string, suffix: nat) {
    Like(prefix + "%", Candidate(prefix, suffix))
  }

  /** A conflict is raised exactly when the proposed number is in use and the query's pattern misses its row. */
  lemma ConflictExactlyWhen(numbers: seq<string>, configured: string, max: nat)
    requires MaxSuffix(numbers, PrefixOf(configured)) == Success(max)
    ensures
      var candidate := Candidate(PrefixOf(configured), max + 1);
      GenerateMemberNumber(numbers, configured) == Failure(NumberTaken) <==>
      candidate in numbers && !Finds(PrefixOf(configured), max + 1)
  {
    var prefix := PrefixOf(configured);
    var candidate := Candidate(prefix, max + 1);
    CandidateReadsBack(prefix, max + 1);
    if candidate in numbers && Finds(prefix, max + 1) {
      MaxOfIs(numbers, SuffixIn(prefix));
    }
  }

  /** Without a backslash in the prefix the generated number is never in use: the conflict is never raised. */
  lemma GeneratedIsFresh(numbers: seq<string>, configured: string)
    requires '\\' !in PrefixOf(configured)
    ensures GenerateMemberNumber(numbers, configured) != Failure(NumberTaken)
    ensures GenerateMemberNumber(numbers, configured).Success? ==>
            GenerateMemberNumber(numbers, configured).value !in numbers
  {
    var prefix := PrefixOf(configured);
    if MaxSuffix(numbers, prefix).Success? {
      var max := MaxSuffix(numbers, prefix).value;
      CandidateIsCounted(prefix, max + 1);
      ConflictExactlyWhen(numbers, configured, max);
    }
  }

  /** For every prefix: no table of numbers raises the conflict exactly when the pattern finds all the candidates. */
  lemma NeverConflictsExactlyWhen(configured: string)
    ensures (forall numbers: seq<string> :: GenerateMemberNumber(numbers, configured) != Failure(NumberTaken)) <==>
            forall suffix | 0 < suffix <= MAX_INTEGER + 1 :: Finds(PrefixOf(configured), suffix)
  {
    var prefix := PrefixOf(configured);
    if forall suffix | 0 < suffix <= MAX_INTEGER + 1 :: Finds(prefix, suffix) {
      forall numbers: seq<string>
        ensures GenerateMemberNumber(numbers, configured) != Failure(NumberTaken)
      {
        FoundIsNoConflict(numbers, configured);
      }
    } else {
      var suffix :| 0 < suffix <= MAX_INTEGER + 1 && !Finds(prefix, suffix);
      var numbers := ConflictBelow(configured, suffix);
    }
  }

  lemma FoundIsNoConflict(numbers: seq<string>, configured: string)
    requires forall suffix | 0 < suffix <= MAX_INTEGER + 1 :: Finds(PrefixOf(configured), suffix)
    ensures GenerateMemberNumber(numbers, configured) != Failure(NumberTaken)
  {
    if MaxSuffix(numbers, PrefixOf(configured)).Success? {
      var max := MaxSuffix(numbers, PrefixOf(configured)).value;
      LargestFits(numbers, PrefixOf(configured), max);
      assert Finds(PrefixOf(configured), max + 1);
      ConflictExactlyWhen(numbers, configured, max);
    }
  }

  /** The first number that the pattern misses conflicts. */
  lemma ConflictAt(configured: string, suffix: nat) returns (numbers: seq<string>)
    requires 0 < suffix <= MAX_INTEGER + 1 && !Finds(PrefixOf(configured), suffix)
    requires suffix > 1 ==> Finds(PrefixOf(configured), suffix - 1)
    ensures GenerateMemberNumber(numbers, configured) == Failure(NumberTaken)
  {
    var prefix := PrefixOf(configured);
    var before := if suffix == 1 then [] else [Candidate(prefix, suffix - 1)];
    numbers := before + [Candidate(prefix, suffix)];
    OneFound(prefix, suffix - 1);
    MissedIsNotCounted(before, prefix, suffix, suffix - 1);
    GeneratedUnlessInUse(numbers, configured, suffix - 1);
    assert Candidate(prefix, suffix) in numbers;
  }

  /** Below a number that the pattern misses there is a first one. */
  lemma {:induction false} ConflictBelow(configured: string, suffix: nat) returns (numbers: seq<string>)
    requires 0 < suffix <= MAX_INTEGER + 1 && !Finds(PrefixOf(configured), suffix)
    ensures GenerateMemberNumber(numbers, configured) == Failure(NumberTaken)
  {
    if suffix > 1 && !Finds(PrefixOf(configured), suffix - 1) {
      numbers := ConflictBelow(configured, suffix - 1);
    } else {
      numbers := ConflictAt(configured, suffix);
    }
  }

  lemma MaxOfOne(suffix: string -> Option<nat>, number: string, value: nat)
    requires suffix(number) == Some(value) && value <= MAX_INTEGER
    ensures MaxOf([number], suffix) == Success(value)
  {
    assert [number][..0] == [];
    assert MaxOf([], suffix) == Success(0);
  }

  lemma OneFound(prefix: string, suffix: nat)
    requires suffix <= MAX_INTEGER && (suffix > 0 ==> Finds(prefix, suffix))
    ensures MaxSuffix(if suffix == 0 then [] else [Candidate(prefix, suffix)], prefix) == Success(suffix)
  {
    if suffix > 0 {
      FoundIsCounted(prefix, suffix);
      MaxOfOne(SuffixIn(prefix), Candidate(prefix, suffix), suffix);
    }
  }

  lemma MissedIsNotCounted(numbers: seq<string>, prefix: string, suffix: nat, max: nat)
    requires MaxSuffix(numbers, prefix) == Success(max) && !Finds(prefix, suffix)
    ensures MaxSuffix(numbers + [Candidate(prefix, suffix)], prefix) == Success(max)
  {
    assert (numbers + [Candidate(prefix, suffix)])[..|numbers|] == numbers;
  }

  lemma LargestFits(numbers: seq<string>, prefix: string, max: nat)
    requires MaxSuffix(numbers, prefix) == Success(max)
    ensures max <= MAX_INTEGER
  {
    MaxOfIs(numbers, SuffixIn(prefix));
  }

  /** With a backslash a number in use can be proposed again: its row is not found by the pattern. */
  lemma EscapedPrefixConflicts()
    ensures GenerateMemberNumber(["A\\0001"], "A\\") == Failure(NumberTaken)
  {
    var number := "A\\0001";
    assert ("A\\" + "%")[1..] == "\\%" && number[1..] == "\\0001";
    assert !Like("\\%", "\\0001");
    assert !Like("A\\" + "%", number);
    var none: seq<string> := [];
    assert [number][..0] == none;
    assert MaxSuffix(none, "A\\") == Success(0);
    assert MaxSuffix([number], "A\\") == Success(0);
    assert Zeros(3) == "000" by { assert Zeros(1) == "0"; }
    assert PadStart(ToDecimal(1), 4) == "0001";
    assert Candidate("A\\", 1) == number;
  }

  // ----- many creations -----

  /** The numbers after `n` members were created automatically one after the other. */
  function AfterCreating(generate: Generator, numbers: seq<string>, n: nat): Result<seq<string>, Error> {
    if n == 0 then Success(numbers)
    else
      match AfterCreating(generate, numbers, n - 1)
      case Failure(e) => Failure(e)
      case Success(now) =>
        match generate(now)
        case Failure(e) => Failure(e)
        case Success(number) => Success(now + [number])
  }

  lemma FoundIsCounted(prefix: string, suffix: nat)
    requires Finds(prefix, suffix)
    ensures SuffixIn(prefix)(Candidate(prefix, suffix)) == Some(suffix)
  {
    CandidateReadsBack(prefix, suffix);
  }

  lemma GeneratedUnlessInUse(numbers: seq<string>, configured: string, max: nat)
    requires MaxSuffix(numbers, PrefixOf(configured)) == Success(max)
    ensures
      var candidate := Candidate(PrefixOf(configured), max + 1);
      GenerateMemberNumber(numbers, configured)
      == if candidate in numbers then Failure(NumberTaken) else Success(candidate)
  {
  }

  /** A number above the largest suffix that the pattern finds is not in use. */
  lemma AboveTheLargestIsUnused(numbers: seq<string>, prefix: string, max: nat, suffix: nat)
    requires MaxSuffix(numbers, prefix) == Success(max) && max < suffix && Finds(prefix, suffix)
    ensures Candidate(prefix, suffix) !in numbers
  {
    CandidateReadsBack(prefix, suffix);
    MaxOfIs(numbers, SuffixIn(prefix));
  }

  /** A creation whose number the pattern finds takes the next suffix, which becomes the largest. */
  lemma CandidateRaisesMax(numbers: seq<string>, configured: string, max: nat)
    requires Finds(PrefixOf(configured), max + 1) && MaxSuffix(numbers, PrefixOf(configured)) == Success(max)
    requires max + 1 <= MAX_INTEGER
    ensures
      var candidate := Candidate(PrefixOf(configured), max + 1);
      && GenerateMemberNumber(numbers, configured) == Success(candidate) && candidate !in numbers
      && MaxSuffix(numbers + [candidate], PrefixOf(configured)) == Success(max + 1)
  {
    var prefix := PrefixOf(configured);
    ConflictExactlyWhen(numbers, configured, max);
    FoundIsCounted(prefix, max + 1);
    MaxOfOneMore(numbers, SuffixIn(prefix), Candidate(prefix, max + 1), max);
  }

  lemma RefusedIfInUse(numbers: seq<string>, configured: string, max: nat)
    requires MaxSuffix(numbers, PrefixOf(configured)) == Success(max)
    requires Candidate(PrefixOf(configured), max + 1) in numbers
    ensures GenerateMemberNumber(numbers, configured).Failure?
  {
  }

  lemma RefusedIfTooLarge(numbers: seq<string>, configured: string)
    requires MaxSuffix(numbers, PrefixOf(configured)).Failure?
    ensures GenerateMemberNumber(numbers, configured).Failure?
  {
  }

  lemma RefusedAfterMissed(numbers: seq<string>, configured: string, max: nat)
    requires MaxSuffix(numbers, PrefixOf(configured)) == Success(max) && !Finds(PrefixOf(configured), max + 1)
    ensures GenerateMemberNumber(numbers + [Candidate(PrefixOf(configured), max + 1)], configured).Failure?
  {
    MissedIsNotCounted(numbers, PrefixOf(configured), max + 1, max);
    RefusedIfInUse(numbers + [Candidate(PrefixOf(configured), max + 1)], configured, max);
  }

  lemma TooLargeFails(numbers: seq<string>, prefix: string, number: string, suffix: nat)
    requires SuffixIn(prefix)(number) == Some(suffix) && suffix > MAX_INTEGER
    ensures MaxSuffix(numbers + [number], prefix).Failure?
  {
    assert (numbers + [number])[..|numbers|] == numbers;
  }

  lemma RefusedAfterTooLarge(numbers: seq<string>, configured: string, max: nat)
    requires Finds(PrefixOf(configured), max + 1) && max + 1 > MAX_INTEGER
    ensures GenerateMemberNumber(numbers + [Candidate(PrefixOf(configured), max + 1)], configured).Failure?
  {
    var prefix := PrefixOf(configured);
    var number := Candidate(prefix, max + 1);
    FoundIsCounted(prefix, max + 1);
    TooLargeFails(numbers, prefix, number, max + 1);
    RefusedIfTooLarge(numbers + [number], configured);
  }

  /** After a creation whose number the pattern does not find, or whose suffix is too large, the next one is refused. */
  lemma NextIsRefused(numbers: seq<string>, configured: string, max: nat)
    requires MaxSuffix(numbers, PrefixOf(configured)) == Success(max)
    requires !Finds(PrefixOf(configured), max + 1) || max + 1 > MAX_INTEGER
    ensures GenerateMemberNumber(numbers + [Candidate(PrefixOf(configured), max + 1)], configured).Failure?
  {
    if Finds(PrefixOf(configured), max + 1) {
      RefusedAfterTooLarge(numbers, configured, max);
    } else {
      RefusedAfterMissed(numbers, configured, max);
    }
  }

  /**
   The numbering of creations in a row, from the largest suffix `max` on: how a number is generated, the largest suffix
   of a table, the numbers that are proposed one after the other, and which of them can be counted afterwards.
   */
  datatype Numbering = Numbering(generate: Generator, largest: seq<string> -> Result<nat, Error>,
                                 proposed: nat -> string, counted: nat -> bool, max: nat)

  function NumberingOf(configured: string, max: nat): Numbering {
    var prefix := PrefixOf(configured);
    Numbering((numbers: seq<string>) => GenerateMemberNumber(numbers, configured),
              (numbers: seq<string>) => MaxSuffix(numbers, prefix),
              (k: nat) => Candidate(prefix, max + k + 1),
              (k: nat) => Finds(prefix, max + k + 1) && max + k + 1 <= MAX_INTEGER,
              max)
  }

  /**
   With `max + k` the largest suffix, a creation takes the `k`-th proposed number unless it is in use. If that can be
   counted it was not in use and is the largest from then on, and if not the next creation is refused.
   */
  predicate TakesTheNext(z: Numbering, now: seq<string>, k: nat) {
    z.largest(now) == Success(z.max + k) ==>
      && (z.proposed(k) in now ==> z.generate(now).Failure?)
      && (z.proposed(k) !in now ==> z.generate(now) == Success(z.proposed(k)))
      && (z.counted(k) ==> z.proposed(k) !in now && z.largest(now + [z.proposed(k)]) == Success(z.max + k + 1))
      && (!z.counted(k) ==> z.generate(now + [z.proposed(k)]).Failure?)
  }

  ghost predicate Numbers(z: Numbering) {
    && (forall now: seq<string>, k: nat :: TakesTheNext(z, now, k))
    && (forall i: nat, j: nat :: z.proposed(i) == z.proposed(j) ==> i == j)
  }

  /** `now` is `numbers` and then the first `n` proposed numbers, each unused before it. */
  ghost predicate Continues(now: seq<string>, numbers: seq<string>, z: Numbering, n: nat) {
    && |now| == |numbers| + n && numbers <= now
    && forall k | 0 <= k < n :: IsNewAt(now, |numbers| + k, z.proposed(k))
  }

  predicate IsNewAt(now: seq<string>, at: nat, number: string) {
    at < |now| && now[at] == number && number !in now[..at]
  }

  lemma ContinuesByOne(now: seq<string>, numbers: seq<string>, z: Numbering, n: nat)
    requires Continues(now, numbers, z, n) && z.proposed(n) !in now
    ensures Continues(now + [z.proposed(n)], numbers, z, n + 1)
  {
    var next := now + [z.proposed(n)];
    forall k | 0 <= k < n + 1
      ensures IsNewAt(next, |numbers| + k, z.proposed(k))
    {
      if k < n {
        assert IsNewAt(now, |numbers| + k, z.proposed(k));
        assert next[..|numbers| + k] == now[..|numbers| + k];
      } else {
        assert next[..|now|] == now;
      }
    }
  }

  lemma AddedWasProposed(now: seq<string>, numbers: seq<string>, z: Numbering, n: nat, number: string) returns (k: nat)
    requires Continues(now, numbers, z, n) && number in now && number !in numbers
    ensures k < n && number == z.proposed(k)
  {
    var i :| 0 <= i < |now| && now[i] == number;
    assert forall j | 0 <= j < |numbers| :: now[j] == numbers[j] && numbers[j] in numbers;
    k := i - |numbers|;
    assert IsNewAt(now, |numbers| + k, z.proposed(k));
  }

  /** A proposed number is in use after some creations exactly when it was before them. */
  lemma OnlyProposedAreAdded(now: seq<string>, numbers: seq<string>, z: Numbering, n: nat)
    requires Numbers(z) && Continues(now, numbers, z, n)
    ensures z.proposed(n) in now <==> z.proposed(n) in numbers
  {
    if z.proposed(n) in now && z.proposed(n) !in numbers {
      var k := AddedWasProposed(now, numbers, z, n, z.proposed(n));
    }
  }

  /** Creations in a row whose numbers can all be counted. */
  lemma {:induction false} InARow(z: Numbering, numbers: seq<string>, n: nat)
    requires Numbers(z) && z.largest(numbers) == Success(z.max) && forall k | 0 <= k < n :: z.counted(k)
    ensures
      var after := AfterCreating(z.generate, numbers, n);
      after.Success? && Continues(after.value, numbers, z, n) && z.largest(after.value) == Success(z.max + n)
  {
    if n > 0 {
      InARow(z, numbers, n - 1);
      var now := AfterCreating(z.generate, numbers, n - 1).value;
      assert TakesTheNext(z, now, n - 1);
      ContinuesByOne(now, numbers, z, n - 1);
    }
  }

  /** All of it can be told before the first creation. */
  predicate CanCreate(z: Numbering, numbers: seq<string>, n: nat) {
    n == 0 || ((forall k | 0 <= k < n - 1 :: z.counted(k)) && z.proposed(n - 1) !in numbers)
  }

  lemma OneMoreAfterCounted(z: Numbering, numbers: seq<string>, n: nat)
    requires Numbers(z) && z.largest(numbers) == Success(z.max) && forall k | 0 <= k < n :: z.counted(k)
    ensures
      var after := AfterCreating(z.generate, numbers, n + 1);
      && (after.Success? <==> z.proposed(n) !in numbers)
      && (after.Success? ==> Continues(after.value, numbers, z, n + 1))
  {
    InARow(z, numbers, n);
    var now := AfterCreating(z.generate, numbers, n).value;
    assert TakesTheNext(z, now, n);
    OnlyProposedAreAdded(now, numbers, z, n);
    if z.proposed(n) !in now { ContinuesByOne(now, numbers, z, n); }
  }

  /** The creation after one that cannot be counted is refused. */
  lemma StuckAfter(z: Numbering, numbers: seq<string>, n: nat)
    requires Numbers(z) && z.largest(numbers) == Success(z.max)
    requires (forall k | 0 <= k < n :: z.counted(k)) && !z.counted(n)
    ensures AfterCreating(z.generate, numbers, n + 2).Failure?
  {
    InARow(z, numbers, n);
    assert TakesTheNext(z, AfterCreating(z.generate, numbers, n).value, n);
    assert AfterCreating(z.generate, numbers, n + 1).Failure?
        || AfterCreating(z.generate, numbers, n + 1).value
           == AfterCreating(z.generate, numbers, n).value + [z.proposed(n)];
  }

  lemma {:induction false} CreateExactlyWhen(z: Numbering, numbers: seq<string>, n: nat)
    requires Numbers(z) && z.largest(numbers) == Success(z.max)
    ensures
      var after := AfterCreating(z.generate, numbers, n);
      && (after.Success? <==> CanCreate(z, numbers, n))
      && (after.Success? ==> Continues(after.value, numbers, z, n))
  {
    if n > 0 {
      if forall k | 0 <= k < n - 1 :: z.counted(k) {
        OneMoreAfterCounted(z, numbers, n - 1);
      } else if forall k | 0 <= k < n - 2 :: z.counted(k) {
        StuckAfter(z, numbers, n - 2);
      } else {
        CreateExactlyWhen(z, numbers, n - 1);
      }
    }
  }

  lemma NumberingNumbers(configured: string, max: nat)
    ensures Numbers(NumberingOf(configured, max))
  {
    var z, prefix := NumberingOf(configured, max), PrefixOf(configured);
    forall now: seq<string>, k: nat
      ensures TakesTheNext(z, now, k)
    {
      if MaxSuffix(now, prefix) == Success(max + k) { EachTakesTheNext(configured, max, now, k); }
    }
    forall i: nat, j: nat | z.proposed(i) == z.proposed(j)
      ensures i == j
    {
      CandidateReadsBack(prefix, max + i + 1);
      CandidateReadsBack(prefix, max + j + 1);
    }
  }

  lemma CountedTakesTheNext(configured: string, max: nat, now: seq<string>, k: nat)
    requires MaxSuffix(now, PrefixOf(configured)) == Success(max + k)
    requires Finds(PrefixOf(configured), max + k + 1) && max + k + 1 <= MAX_INTEGER
    ensures TakesTheNext(NumberingOf(configured, max), now, k)
  {
    CandidateRaisesMax(now, configured, max + k);
  }

  lemma NumberingGenerates(configured: string, max: nat, now: seq<string>, k: nat)
    requires MaxSuffix(now, PrefixOf(configured)) == Success(max + k)
    ensures
      var z := NumberingOf(configured, max);
      z.generate(now) == if z.proposed(k) in now then Failure(NumberTaken) else Success(z.proposed(k))
  {
    GeneratedUnlessInUse(now, configured, max + k);
  }

  lemma NumberingRefuses(configured: string, max: nat, now: seq<string>, k: nat)
    requires MaxSuffix(now, PrefixOf(configured)) == Success(max + k) && !NumberingOf(configured, max).counted(k)
    ensures
      var z := NumberingOf(configured, max);
      z.generate(now + [z.proposed(k)]).Failure?
  {
    NextIsRefused(now, configured, max + k);
  }

  lemma TakesAsTheLast(z: Numbering, now: seq<string>, k: nat)
    requires !z.counted(k) && z.generate(now + [z.proposed(k)]).Failure?
    requires z.generate(now) == if z.proposed(k) in now then Failure(NumberTaken) else Success(z.proposed(k))
    ensures TakesTheNext(z, now, k)
  {
  }

  lemma EachTakesTheNext(configured: string, max: nat, now: seq<string>, k: nat)
    requires MaxSuffix(now, PrefixOf(configured)) == Success(max + k)
    ensures TakesTheNext(NumberingOf(configured, max), now, k)
  {
    if NumberingOf(configured, max).counted(k) {
      CountedTakesTheNext(configured, max, now, k);
    } else {
      NumberingGenerates(configured, max, now, k);
      NumberingRefuses(configured, max, now, k);
      TakesAsTheLast(NumberingOf(configured, max), now, k);
    }
  }

  /**
   For every prefix, `n` automatic creations in a row succeed exactly when the suffixes before the last one are integers
   whose numbers the pattern finds, and the last number is not in use. Then they take the `n` consecutive suffixes after
   the largest one, each number unused before.
   */
  lemma ConsecutiveSuffixes(numbers: seq<string>, configured: string, max: nat, n: nat)
    requires MaxSuffix(numbers, PrefixOf(configured)) == Success(max)
    ensures
      var z := NumberingOf(configured, max);
      var after := AfterCreating(z.generate, numbers, n);
      && (after.Success? <==> CanCreate(z, numbers, n))
      && (after.Success? ==> Continues(after.value, numbers, z, n))
  {
    NumberingNumbers(configured, max);
    CreateExactlyWhen(NumberingOf(configured, max), numbers, n);
  }

  /** When the first `limit` numbers can be counted and none is in use, that many creations succeed, and one more. */
  lemma CreatesUpTo(z: Numbering, numbers: seq<string>, n: nat, limit: nat)
    requires 0 < n && forall k: nat :: (z.counted(k) <==> k < limit) && z.proposed(k) !in numbers
    ensures CanCreate(z, numbers, n) <==> n <= limit + 1
  {
    if n > limit + 1 {
      assert !z.counted(limit);
    }
  }

  lemma PlainCounts(numbers: seq<string>, configured: string, max: nat, k: nat)
    requires '\\' !in PrefixOf(configured) && MaxSuffix(numbers, PrefixOf(configured)) == Success(max)
    ensures
      var z := NumberingOf(configured, max);
      (z.counted(k) <==> k < MAX_INTEGER - max) && z.proposed(k) !in numbers
  {
    PlainIsCounted(numbers, PrefixOf(configured), max, k);
  }

  lemma PlainCanCreate(numbers: seq<string>, configured: string, max: nat, n: nat)
    requires '\\' !in PrefixOf(configured) && MaxSuffix(numbers, PrefixOf(configured)) == Success(max) && 0 < n
    ensures CanCreate(NumberingOf(configured, max), numbers, n) <==> max + n - 1 <= MAX_INTEGER
  {
    var z := NumberingOf(configured, max);
    LargestFits(numbers, PrefixOf(configured), max);
    forall k: nat
      ensures (z.counted(k) <==> k < MAX_INTEGER - max) && z.proposed(k) !in numbers
    {
      PlainCounts(numbers, configured, max, k);
    }
    CreatesUpTo(z, numbers, n, MAX_INTEGER - max);
  }

  /** Without a backslash in the prefix that means: as long as the suffixes before the last one are integers. */
  lemma PlainPrefixCreates(numbers: seq<string>, configured: string, max: nat, n: nat)
    requires '\\' !in PrefixOf(configured) && MaxSuffix(numbers, PrefixOf(configured)) == Success(max) && 0 < n
    ensures AfterCreating(NumberingOf(configured, max).generate, numbers, n).Success? <==> max + n - 1 <= MAX_INTEGER
  {
    ConsecutiveSuffixes(numbers, configured, max, n);
    PlainCanCreate(numbers, configured, max, n);
  }

  lemma PlainIsCounted(numbers: seq<string>, prefix: string, max: nat, k: nat)
    requires '\\' !in prefix && MaxSuffix(numbers, prefix) == Success(max)
    ensures Finds(prefix, max + k + 1) && Candidate(prefix, max + k + 1) !in numbers
  {
    CandidateIsCounted(prefix, max + k + 1);
    AboveTheLargestIsUnused(numbers, prefix, max, max + k + 1);
  }
}
