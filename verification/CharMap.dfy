/** The map node's rules and what an ordered rule list does to a byte stream (core/src/map.rs). */
module CharMap {
  import opened Basics

  datatype Mapping =
    | Crlf | Crcrlf | Igncr | Lfcr | Lfcrlf | Ignlf | Bsdel | Delbs
    | Spchex | Tabhex | Crhex | Lfhex | EightBitHex | NrmHex
  {
    predicate Matches(b: Byte) {
      match this
      case Crlf | Crcrlf | Igncr | Crhex => b == 0x0d
      case Lfcr | Lfcrlf | Ignlf | Lfhex => b == 0x0a
      case Bsdel => b == 0x08
      case Delbs => b == 0x7f
      case Spchex => b == 0x7f || (b < 0x20 && b != 0x09 && b != 0x0a && b != 0x0d)
      case Tabhex => b == 0x09
      case EightBitHex => b >= 0x80
      case NrmHex => 0x20 <= b <= 0x7e
    }

    function Output(b: Byte): seq<Byte> {
      match this
      case Crlf => [0x0a]
      case Lfcr => [0x0d]
      case Crcrlf | Lfcrlf => [0x0d, 0x0a]
      case Igncr | Ignlf => []
      case Bsdel => [0x7f]
      case Delbs => [0x08]
      case _ => Hex(b)
    }

    /** The number of bytes this mapping emits for one input byte. */
    function Expansion(): nat {
      match this
      case Igncr | Ignlf => 0
      case Crlf | Lfcr | Bsdel | Delbs => 1
      case Crcrlf | Lfcrlf => 2
      case _ => 4
    }
  }

  function HexDigit(n: nat): Byte
    requires n < 16
  {
    if n < 10 then 48 + n else 87 + n
  }

  /** `[xx]` in lowercase hex. */
  function Hex(b: Byte): seq<Byte> {
    [91, HexDigit(b / 16), HexDigit(b % 16), 93]
  }

  // ---- The ordered rule list as a first-match scan ----

  /** The first rule that matches, by list position. */
  function FirstMatch(rules: seq<Mapping>, b: Byte): (r: Option<nat>)
    ensures r.Some? ==> r.value < |rules| && rules[r.value].Matches(b)
    ensures r.Some? ==> forall j :: 0 <= j < r.value ==> !rules[j].Matches(b)
    ensures r.None? ==> forall j :: 0 <= j < |rules| ==> !rules[j].Matches(b)
  {
    if rules == [] then None
    else if rules[0].Matches(b) then Some(0)
    else match FirstMatch(rules[1..], b) { case None => None case Some(k) => Some(k + 1) }
  }

  /** One byte's fate: unchanged, or replaced by what the first matching rule emits. */
  datatype Slot = Pass | Sub(rule: nat, out: seq<Byte>)

  function Fate(rules: seq<Mapping>, b: Byte): Slot {
    match FirstMatch(rules, b)
    case None => Pass
    case Some(k) => Sub(k, rules[k].Output(b))
  }

  function Emitted(slot: Slot, b: Byte): seq<Byte> {
    if slot.Pass? then [b] else slot.out
  }

  function Fired(slot: Slot): seq<nat> {
    if slot.Pass? then [] else [slot.rule]
  }

  /** The mapped stream, byte by byte. */
  function Mapped(rules: seq<Mapping>, input: seq<Byte>): seq<Byte> {
    if input == [] then []
    else
      var init, last := input[..|input| - 1], input[|input| - 1];
      Mapped(rules, init) + Emitted(Fate(rules, last), last)
  }

  /** The rules that fired, in order. */
  function Log(rules: seq<Mapping>, input: seq<Byte>): seq<nat> {
    if input == [] then []
    else
      var init, last := input[..|input| - 1], input[|input| - 1];
      Log(rules, init) + Fired(Fate(rules, last))
  }

  /** How often rule `i` fired. */
  function Count(log: seq<nat>, i: nat): nat {
    if log == [] then 0
    else Count(log[..|log| - 1], i) + if log[|log| - 1] == i then 1 else 0
  }

  // ---- Chunk boundaries do not matter ----

  lemma MappedSnoc(rules: seq<Mapping>, init: seq<Byte>, last: Byte)
    ensures Mapped(rules, init + [last]) == Mapped(rules, init) + Emitted(Fate(rules, last), last)
    ensures Log(rules, init + [last]) == Log(rules, init) + Fired(Fate(rules, last))
  {
    assert (init + [last])[..|init|] == init;
  }

  lemma {:induction false} MappedConcatenates(rules: seq<Mapping>, a: seq<Byte>, b: seq<Byte>)
    ensures Mapped(rules, a + b) == Mapped(rules, a) + Mapped(rules, b)
    ensures Log(rules, a + b) == Log(rules, a) + Log(rules, b)
  {
    if b == [] {
      NothingLast(a);
      NothingLast(Mapped(rules, a));
      NothingLast(Log(rules, a));
    } else {
      var init, last := b[..|b| - 1], b[|b| - 1];
      MappedConcatenates(rules, a, init);
      LastApart(b);
      Regroup(a, init, [last]);
      MappedSnoc(rules, a + init, last);
      Regroup(Mapped(rules, a), Mapped(rules, init), Emitted(Fate(rules, last), last));
      Regroup(Log(rules, a), Log(rules, init), Fired(Fate(rules, last)));
    }
  }

  lemma {:induction false} CountConcatenates(a: seq<nat>, b: seq<nat>, i: nat)
    ensures Count(a + b, i) == Count(a, i) + Count(b, i)
  {
    if b == [] {
      assert a + b == a;
    } else {
      assert (a + b)[..|a + b| - 1] == a + b[..|b| - 1];
      CountConcatenates(a, b[..|b| - 1], i);
    }
  }

  /** Two calls on the two halves of a buffer give the output and the per-rule counts of one call on the whole. */
  lemma ChunksCompose(rules: seq<Mapping>, a: seq<Byte>, b: seq<Byte>, i: nat)
    ensures Mapped(rules, a + b) == Mapped(rules, a) + Mapped(rules, b)
    ensures Count(Log(rules, a + b), i) == Count(Log(rules, a), i) + Count(Log(rules, b), i)
  {
    MappedConcatenates(rules, a, b);
    CountConcatenates(Log(rules, a), Log(rules, b), i);
  }

  // ---- The length law ----

  lemma OutputLength(m: Mapping, b: Byte)
    ensures |m.Output(b)| == m.Expansion()
  {
  }

  /** Fires weighted by expansion, over the first `n` rules. */
  function Weighted(rules: seq<Mapping>, log: seq<nat>, n: nat): nat
    requires n <= |rules|
  {
    if n == 0 then 0 else Weighted(rules, log, n - 1) + Count(log, n - 1) * rules[n - 1].Expansion()
  }

  lemma Distribute(count: nat, expansion: nat)
    ensures (count + 1) * expansion == count * expansion + expansion
  {
  }

  lemma {:induction false} WeightedSnoc(rules: seq<Mapping>, log: seq<nat>, k: nat, n: nat)
    requires n <= |rules|
    ensures Weighted(rules, log + [k], n) == Weighted(rules, log, n) + if k < n then rules[k].Expansion() else 0
  {
    assert (log + [k])[..|log|] == log;
    if n > 0 {
      WeightedSnoc(rules, log, k, n - 1);
      Distribute(Count(log, n - 1), rules[n - 1].Expansion());
    }
  }

  lemma {:induction false} WeightedNone(rules: seq<Mapping>, n: nat)
    requires n <= |rules|
    ensures Weighted(rules, [], n) == 0
  {
    if n > 0 {
      WeightedNone(rules, n - 1);
    }
  }

  /** Output length = input length - total fires + the sum over the rules of fires times expansion. */
  lemma {:induction false} LengthLaw(rules: seq<Mapping>, input: seq<Byte>)
    ensures var log := Log(rules, input);
            |log| <= |input| && |Mapped(rules, input)| == |input| - |log| + Weighted(rules, log, |rules|)
  {
    if input == [] {
      WeightedNone(rules, |rules|);
    } else {
      var init, last := input[..|input| - 1], input[|input| - 1];
      LengthLaw(rules, init);
      match FirstMatch(rules, last)
      case None =>
        assert Log(rules, init) + [] == Log(rules, init);
      case Some(k) =>
        OutputLength(rules[k], last);
        WeightedSnoc(rules, Log(rules, init), k, |rules|);
    }
  }

  /** The largest expansion among the rules, and at least 1. */
  function MaxExpansion(rules: seq<Mapping>): (k: nat)
    ensures 1 <= k <= 4
    ensures forall i :: 0 <= i < |rules| ==> rules[i].Expansion() <= k
    ensures k == 1 || exists i :: 0 <= i < |rules| && rules[i].Expansion() == k
  {
    if rules == [] then 1
    else
      var rest, e := MaxExpansion(rules[..|rules| - 1]), rules[|rules| - 1].Expansion();
      if e > rest then e else rest
  }

  lemma {:induction false} OutputIsBounded(rules: seq<Mapping>, input: seq<Byte>)
    ensures |Mapped(rules, input)| <= MaxExpansion(rules) * |input|
  {
    if input != [] {
      var init, last := input[..|input| - 1], input[|input| - 1];
      OutputIsBounded(rules, init);
      EmittedIsBounded(rules, last);
      BoundOneMore(|Mapped(rules, init)|, |Emitted(Fate(rules, last), last)|, MaxExpansion(rules), |init|);
    }
  }

  lemma BoundOneMore(length: nat, more: nat, k: nat, n: nat)
    requires length <= k * n && more <= k
    ensures length + more <= k * (n + 1)
  {
  }

  lemma EmittedIsBounded(rules: seq<Mapping>, b: Byte)
    ensures |Emitted(Fate(rules, b), b)| <= MaxExpansion(rules)
  {
    if FirstMatch(rules, b).Some? {
      OutputLength(rules[FirstMatch(rules, b).value], b);
    }
  }

  // ---- Rule lists that do the same ----

  ghost predicate SameOutput(rules: seq<Mapping>, rules': seq<Mapping>) {
    forall b: Byte :: Emitted(Fate(rules, b), b) == Emitted(Fate(rules', b), b)
  }

  lemma {:induction false} SameOutputMapsSame(rules: seq<Mapping>, rules': seq<Mapping>, input: seq<Byte>)
    requires SameOutput(rules, rules')
    ensures Mapped(rules, input) == Mapped(rules', input)
  {
    if input != [] {
      SameOutputMapsSame(rules, rules', input[..|input| - 1]);
    }
  }

  lemma FirstMatchIs(rules: seq<Mapping>, b: Byte, k: nat)
    requires k < |rules| && rules[k].Matches(b) && forall j :: 0 <= j < k ==> !rules[j].Matches(b)
    ensures FirstMatch(rules, b) == Some(k)
  {
  }

  lemma NoMatchIs(rules: seq<Mapping>, b: Byte)
    requires forall j :: 0 <= j < |rules| ==> !rules[j].Matches(b)
    ensures FirstMatch(rules, b) == None
  {
  }

  ghost predicate Disjoint(m: Mapping, m': Mapping) {
    forall b: Byte :: m.Matches(b) ==> !m'.Matches(b)
  }

  /** Swapping adjacent rules that never match the same byte changes no output. */
  lemma SwapDisjoint(rules: seq<Mapping>, i: nat, input: seq<Byte>)
    requires i + 1 < |rules| && Disjoint(rules[i], rules[i + 1])
    ensures Mapped(rules[i := rules[i + 1]][i + 1 := rules[i]], input) == Mapped(rules, input)
  {
    var swapped := rules[i := rules[i + 1]][i + 1 := rules[i]];
    forall b: Byte ensures Emitted(Fate(rules, b), b) == Emitted(Fate(swapped, b), b) {
      match FirstMatch(rules, b)
      case None => NoMatchIs(swapped, b);
      case Some(k) => FirstMatchIs(swapped, b, if k == i then i + 1 else if k == i + 1 then i else k);
    }
    SameOutputMapsSame(rules, swapped, input);
  }

  /** Rule `i` never decides a byte: earlier rules match all it matches. */
  ghost predicate Covered(rules: seq<Mapping>, i: nat)
    requires i < |rules|
  {
    forall b: Byte :: rules[i].Matches(b) ==> exists j :: 0 <= j < i && rules[j].Matches(b)
  }

  /** Dropping a covered rule changes no output. */
  lemma DropCovered(rules: seq<Mapping>, i: nat, input: seq<Byte>)
    requires i < |rules| && Covered(rules, i)
    ensures Mapped(rules[..i] + rules[i + 1..], input) == Mapped(rules, input)
  {
    var dropped := rules[..i] + rules[i + 1..];
    forall b: Byte ensures Emitted(Fate(rules, b), b) == Emitted(Fate(dropped, b), b) {
      assert rules[i].Matches(b) ==> exists j :: 0 <= j < i && rules[j].Matches(b);
      match FirstMatch(rules, b)
      case None => NoMatchIs(dropped, b);
      case Some(k) => FirstMatchIs(dropped, b, if k < i then k else k - 1);
    }
    SameOutputMapsSame(rules, dropped, input);
  }

  // ---- The hex family ----

  const HEX_RULES := {Spchex, Tabhex, Crhex, Lfhex, EightBitHex, NrmHex}

  /** The one hex rule that matches a byte. */
  function HexRuleOf(b: Byte): Mapping {
    if b >= 0x80 then EightBitHex
    else if b == 0x09 then Tabhex
    else if b == 0x0a then Lfhex
    else if b == 0x0d then Crhex
    else if b < 0x20 || b == 0x7f then Spchex
    else NrmHex
  }

  /** The six hex rules partition the byte space. */
  lemma HexPartition(b: Byte)
    ensures HexRuleOf(b) in HEX_RULES
    ensures forall m :: m in HEX_RULES ==> (m.Matches(b) <==> m == HexRuleOf(b))
  {
  }

  /** All six hex rules and no others, in any order. */
  predicate HexList(rules: seq<Mapping>) {
    (forall m :: m in rules ==> m in HEX_RULES) && (forall m :: m in HEX_RULES ==> m in rules)
  }

  lemma HexEmits(rules: seq<Mapping>, b: Byte)
    requires HexList(rules)
    ensures Emitted(Fate(rules, b), b) == Hex(b)
  {
    HexPartition(b);
    var i :| 0 <= i < |rules| && rules[i] == HexRuleOf(b);
    assert FirstMatch(rules, b).Some?;
    var k := FirstMatch(rules, b).value;
    assert rules[k] in rules;
  }

  lemma HexIsInjective(a: Byte, b: Byte)
    requires Hex(a) == Hex(b)
    ensures a == b
  {
    assert HexDigit(a / 16) == Hex(a)[1] == Hex(b)[1] && HexDigit(a % 16) == Hex(a)[2] == Hex(b)[2];
    assert a == a / 16 * 16 + a % 16 && b == b / 16 * 16 + b % 16;
  }

  /** With the whole hex family every output is four times its input. */
  lemma {:induction false} HexIsFourfold(rules: seq<Mapping>, input: seq<Byte>)
    requires HexList(rules)
    ensures |Mapped(rules, input)| == 4 * |input|
  {
    if input != [] {
      HexIsFourfold(rules, input[..|input| - 1]);
      HexEmits(rules, input[|input| - 1]);
    }
  }

  lemma HexLast(rules: seq<Mapping>, a: seq<Byte>)
    requires HexList(rules) && a != []
    ensures Mapped(rules, a) == Mapped(rules, a[..|a| - 1]) + Hex(a[|a| - 1]) && |Hex(a[|a| - 1])| == 4
  {
    HexEmits(rules, a[|a| - 1]);
  }

  /** With the whole hex family the input can be read back from the output. */
  lemma {:induction false} HexIsReversible(rules: seq<Mapping>, a: seq<Byte>, b: seq<Byte>)
    requires HexList(rules) && Mapped(rules, a) == Mapped(rules, b)
    ensures a == b
    decreases |a|
  {
    HexIsFourfold(rules, a);
    HexIsFourfold(rules, b);
    if a != [] {
      var n := |a| - 1;
      LastApart(a);
      LastApart(b);
      HexLast(rules, a);
      HexLast(rules, b);
      SameCut(Mapped(rules, a[..n]), Hex(a[n]), Mapped(rules, b[..n]), Hex(b[n]));
      HexIsReversible(rules, a[..n], b[..n]);
      HexIsInjective(a[n], b[n]);
    }
  }

  // ---- Rules that undo each other ----

  /** The two pairs of rules that exchange two bytes. */
  predicate Exchanges(rules: seq<Mapping>) {
    rules in {[Bsdel, Delbs], [Delbs, Bsdel], [Crlf, Lfcr], [Lfcr, Crlf]}
  }

  lemma ExchangeOneByte(rules: seq<Mapping>, b: Byte)
    requires Exchanges(rules)
    ensures |Emitted(Fate(rules, b), b)| == 1
    ensures var c := Emitted(Fate(rules, b), b)[0]; Emitted(Fate(rules, c), c) == [b]
  {
    assert |rules| == 2 && rules[1..] == [rules[1]] && rules[1..][1..] == [];
  }

  /** Exchanging backspace and delete, or carriage return and line feed, twice is no change. */
  lemma {:induction false} ExchangeTwiceIsIdentity(rules: seq<Mapping>, input: seq<Byte>)
    requires Exchanges(rules)
    ensures Mapped(rules, Mapped(rules, input)) == input
  {
    if input != [] {
      var init, last := input[..|input| - 1], input[|input| - 1];
      var out := Emitted(Fate(rules, last), last);
      LastApart(input);
      ExchangeTwiceIsIdentity(rules, init);
      ExchangeOneByte(rules, last);
      assert out == [out[0]];
      MappedSnoc(rules, Mapped(rules, init), out[0]);
    }
  }

  // ---- What the line-ending rules do to a stream ----

  /** `input` with every byte `b` written as `piece`. */
  function Rewritten(input: seq<Byte>, b: Byte, piece: seq<Byte>): seq<Byte> {
    if input == [] then []
    else
      var init, last := input[..|input| - 1], input[|input| - 1];
      Rewritten(init, b, piece) + if last == b then piece else [last]
  }

  /** The rule acts on the byte `b` alone and writes `piece` for it. */
  ghost predicate Rewrites(m: Mapping, b: Byte, piece: seq<Byte>) {
    forall x: Byte :: Emitted(Fate([m], x), x) == if x == b then piece else [x]
  }

  lemma OneRuleFate(m: Mapping, b: Byte)
    ensures Emitted(Fate([m], b), b) == if m.Matches(b) then m.Output(b) else [b]
  {
    assert [m][1..] == [];
  }

  lemma {:induction false} RuleRewrites(m: Mapping, b: Byte, piece: seq<Byte>, input: seq<Byte>)
    requires Rewrites(m, b, piece)
    ensures Mapped([m], input) == Rewritten(input, b, piece)
  {
    if input != [] {
      RuleRewrites(m, b, piece, input[..|input| - 1]);
    }
  }

  /** What each line-ending and erase rule alone does to a stream. */
  lemma SingleRules(input: seq<Byte>)
    ensures Mapped([Crlf], input) == Rewritten(input, 0x0d, [0x0a])
    ensures Mapped([Crcrlf], input) == Rewritten(input, 0x0d, [0x0d, 0x0a])
    ensures Mapped([Igncr], input) == Rewritten(input, 0x0d, [])
    ensures Mapped([Lfcr], input) == Rewritten(input, 0x0a, [0x0d])
    ensures Mapped([Lfcrlf], input) == Rewritten(input, 0x0a, [0x0d, 0x0a])
    ensures Mapped([Ignlf], input) == Rewritten(input, 0x0a, [])
    ensures Mapped([Bsdel], input) == Rewritten(input, 0x08, [0x7f])
    ensures Mapped([Delbs], input) == Rewritten(input, 0x7f, [0x08])
  {
    SingleRule(Crlf, 0x0d, [0x0a], input);
    SingleRule(Crcrlf, 0x0d, [0x0d, 0x0a], input);
    SingleRule(Igncr, 0x0d, [], input);
    SingleRule(Lfcr, 0x0a, [0x0d], input);
    SingleRule(Lfcrlf, 0x0a, [0x0d, 0x0a], input);
    SingleRule(Ignlf, 0x0a, [], input);
    SingleRule(Bsdel, 0x08, [0x7f], input);
    SingleRule(Delbs, 0x7f, [0x08], input);
  }

  lemma SingleRule(m: Mapping, b: Byte, piece: seq<Byte>, input: seq<Byte>)
    requires forall x: Byte :: m.Matches(x) <==> x == b
    requires m.Output(b) == piece
    ensures Mapped([m], input) == Rewritten(input, b, piece)
  {
    forall x: Byte ensures Emitted(Fate([m], x), x) == if x == b then piece else [x] {
      OneRuleFate(m, x);
    }
    RuleRewrites(m, b, piece, input);
  }

  /** Every line feed stands behind a carriage return. */
  predicate FedAfterReturn(out: seq<Byte>) {
    forall i :: 0 <= i < |out| && out[i] == 0x0a ==> i > 0 && out[i - 1] == 0x0d
  }

  /** Every carriage return stands before a line feed. */
  predicate ReturnBeforeFeed(out: seq<Byte>) {
    forall i :: 0 <= i < |out| && out[i] == 0x0d ==> i + 1 < |out| && out[i + 1] == 0x0a
  }

  lemma FedJoins(a: seq<Byte>, b: seq<Byte>)
    requires FedAfterReturn(a) && FedAfterReturn(b)
    ensures FedAfterReturn(a + b)
  {
  }

  lemma ReturnJoins(a: seq<Byte>, b: seq<Byte>)
    requires ReturnBeforeFeed(a) && ReturnBeforeFeed(b)
    ensures ReturnBeforeFeed(a + b)
  {
  }

  /** `lfcrlf` leaves no line feed without a carriage return before it. */
  lemma {:induction false} FeedsGetReturns(input: seq<Byte>)
    ensures FedAfterReturn(Mapped([Lfcrlf], input))
  {
    if input != [] {
      var init, last := input[..|input| - 1], input[|input| - 1];
      FeedsGetReturns(init);
      OneRuleFate(Lfcrlf, last);
      FedJoins(Mapped([Lfcrlf], init), Emitted(Fate([Lfcrlf], last), last));
    }
  }

  /** `crcrlf` leaves no carriage return without a line feed behind it. */
  lemma {:induction false} ReturnsGetFeeds(input: seq<Byte>)
    ensures ReturnBeforeFeed(Mapped([Crcrlf], input))
  {
    if input != [] {
      var init, last := input[..|input| - 1], input[|input| - 1];
      ReturnsGetFeeds(init);
      OneRuleFate(Crcrlf, last);
      ReturnJoins(Mapped([Crcrlf], init), Emitted(Fate([Crcrlf], last), last));
    }
  }

  /** The value of a lowercase hex digit. */
  function DigitValue(d: Byte): int {
    if 48 <= d <= 57 then d - 48 else if 97 <= d <= 102 then d - 97 + 10 else -1
  }

  /** `[xx]`: brackets around two lowercase digits that spell the byte. */
  lemma HexSpellsByte(b: Byte)
    ensures |Hex(b)| == 4 && Hex(b)[0] == '[' as int && Hex(b)[3] == ']' as int
    ensures 0 <= DigitValue(Hex(b)[1]) < 16 && 0 <= DigitValue(Hex(b)[2]) < 16
    ensures DigitValue(Hex(b)[1]) * 16 + DigitValue(Hex(b)[2]) == b
  {
  }
}
