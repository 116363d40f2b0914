/** The flags of lre_compile by the places of their bits. */
module FlagBits {
  import opened Syntax
  import opened Compiler

  function BitOf(b: bool, value: nat): nat {
    if b then value else 0
  }

  /** The flags by the places of their bits: after the lowest, which plays no part in compiling, those
      of the letters i, m, s, u and y. */
  lemma FlagsByPlace(g: bool, i: bool, m: bool, s: bool, u: bool, y: bool, rest: nat)
    ensures var low := BitOf(g, 1) + BitOf(i, 2) + BitOf(m, 4) + BitOf(s, 8) + BitOf(u, 16);
            var reFlags := low + BitOf(y, 32) + 64 * rest;
            FlagsOf(reFlags) == Flags(i, m, s) && Sticky(reFlags) == y
  {
    var fromU := BitOf(u, 1) + 2 * (BitOf(y, 1) + 2 * rest);
    var fromS := BitOf(s, 1) + 2 * fromU;
    var fromM := BitOf(m, 1) + 2 * fromS;
    var reFlags := BitOf(g, 1) + 2 * (BitOf(i, 1) + 2 * fromM);
    BitAt(reFlags, 2, BitOf(g, 1), i, fromM);
    BitAt(reFlags, 4, BitOf(g, 1) + BitOf(i, 2), m, fromS);
    BitAt(reFlags, 8, BitOf(g, 1) + BitOf(i, 2) + BitOf(m, 4), s, fromU);
    BitAt(reFlags, 32, BitOf(g, 1) + BitOf(i, 2) + BitOf(m, 4) + BitOf(s, 8) + BitOf(u, 16), y, rest);
    hide Flagged;
  }

  lemma BitAt(n: nat, value: nat, low: nat, b: bool, high: nat)
    requires value in {2, 4, 8, 32} && low < value && n == low + value * (BitOf(b, 1) + 2 * high)
    ensures Flagged(n, value) == b
  {
  }
}
