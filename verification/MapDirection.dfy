/** The compiled 256-entry table and its application (core/src/map.rs). */
module MapDirection {
  import opened Basics
  import opened CharMap

  /** Where a direction writes: the bytes it appends and the rules it reports, one entry for each fire. */
  class Outlet {
    var bytes: seq<Byte>
    var fired: seq<nat>

    constructor ()
      ensures bytes == [] && fired == []
    {
      bytes, fired := [], [];
    }
  }

  /** The position of the first rule that matches. */
  method FindRule(rules: seq<Mapping>, b: Byte) returns (r: Option<nat>)
    ensures r == FirstMatch(rules, b)
  {
    for i := 0 to |rules|
      invariant forall j :: 0 <= j < i ==> !rules[j].Matches(b)
    {
      if rules[i].Matches(b) {
        return Some(i);
      }
    }
    r := None;
  }

  method FindMaxExpansion(rules: seq<Mapping>) returns (k: nat)
    ensures k == MaxExpansion(rules)
  {
    k := 1;
    for i := 0 to |rules|
      invariant k == MaxExpansion(rules[..i])
    {
      assert rules[..i + 1][..i] == rules[..i];
      if rules[i].Expansion() > k {
        k := rules[i].Expansion();
      }
    }
    assert rules[..|rules|] == rules;
  }

  class Direction {
    const rules: seq<Mapping>
    const table: array<Slot>
    var maxExpansion: nat

    /** The table is the first-match scan, entry by entry. */
    ghost predicate Compiled()
      reads this, table
    {
      && table.Length == 256
      && (forall b: Byte :: table[b] == Fate(rules, b))
      && maxExpansion == MaxExpansion(rules)
    }

    constructor (rules: seq<Mapping>)
      ensures Compiled() && this.rules == rules && fresh(table)
    {
      var slots := new Slot[256](_ => Pass);
      for b := 0 to 256
        invariant forall c: Byte :: c < b ==> slots[c] == Fate(rules, c)
        invariant forall c: Byte :: b <= c ==> slots[c] == Pass
      {
        var rule := FindRule(rules, b);
        if rule.Some? {
          slots[b] := Sub(rule.value, rules[rule.value].Output(b));
        }
      }
      var k := FindMaxExpansion(rules);
      this.rules, this.table, this.maxExpansion := rules, slots, k;
    }

    /** Append the mapped bytes and report each fire; the output never exceeds `maxExpansion` times the input. */
    method Apply(input: seq<Byte>, out: Outlet)
      requires Compiled()
      modifies out
      ensures out.bytes == old(out.bytes) + Mapped(rules, input)
      ensures out.fired == old(out.fired) + Log(rules, input)
      ensures |out.bytes| <= |old(out.bytes)| + maxExpansion * |input|
    {
      for i := 0 to |input|
        invariant out.bytes == old(out.bytes) + Mapped(rules, input[..i])
        invariant out.fired == old(out.fired) + Log(rules, input[..i])
      {
        var slot := table[input[i]];
        assert input[..i + 1] == input[..i] + [input[i]];
        MappedSnoc(rules, input[..i], input[i]);
        Regroup(old(out.bytes), Mapped(rules, input[..i]), Emitted(slot, input[i]));
        Regroup(old(out.fired), Log(rules, input[..i]), Fired(slot));
        match slot
        case Pass =>
          out.bytes := out.bytes + [input[i]];
          NothingLast(out.fired);
        case Sub(rule, bytes) =>
          out.bytes := out.bytes + bytes;
          out.fired := out.fired + [rule];
      }
      assert input[..|input|] == input;
      OutputIsBounded(rules, input);
    }
  }
}
