/**
 Texts of fixed layout: decimals of fixed width, each followed by a fixed text.
 Writing and reading are inverse, and text order is the order of the numbers.
 */
module Layouts {
  import opened Wrappers
  import opened Decimals

  /** The width of one number and the text that follows it. */
  datatype Slot = Slot(width: nat, after: string)

  type Layout = seq<Slot>

  function Width(layout: Layout): nat {
    if layout == [] then 0 else layout[0].width + |layout[0].after| + Width(layout[1..])
  }

  /** Each number can be written in its slot. */
  predicate FitsLayout(ns: seq<int>, layout: Layout) {
    if layout == [] then ns == []
    else ns != [] && 0 <= ns[0] < Power10(layout[0].width) && FitsLayout(ns[1..], layout[1..])
  }

  function Spell(ns: seq<int>, layout: Layout): string {
    if ns == [] || layout == [] then ""
    else Decimal(ns[0], layout[0].width) + (layout[0].after + Spell(ns[1..], layout[1..]))
  }

  /** The numbers at the start of s, if it begins as the layout says. */
  function Scan(s: string, layout: Layout): (r: Option<seq<int>>)
    ensures r.Some? ==> |r.value| == |layout|
  {
    if layout == [] then Some([])
    else
      var w, after := layout[0].width, layout[0].after;
      if |s| < w + |after| || !AllDigits(s[..w]) || s[w..w + |after|] != after then None
      else
        match Scan(s[w + |after|..], layout[1..])
        case None => None
        case Some(ns) => Some([Value(s[..w])] + ns)
  }

  /** Number by number, the first difference deciding. */
  predicate Lex(ms: seq<int>, ns: seq<int>) {
    ms != [] && ns != [] && (ms[0] < ns[0] || (ms[0] == ns[0] && Lex(ms[1..], ns[1..])))
  }

  lemma {:induction false} SpellLength(ns: seq<int>, layout: Layout)
    requires |ns| == |layout|
    ensures |Spell(ns, layout)| == Width(layout)
  {
    if layout != [] { SpellLength(ns[1..], layout[1..]); }
  }

  lemma FirstSlot(digits: string, after: string, tail: string)
    ensures var s := digits + (after + tail);
            s[..|digits|] == digits && s[|digits|..|digits| + |after|] == after && s[|digits| + |after|..] == tail
  {
  }

  /** What was written reads back, whatever follows it. */
  lemma {:induction false} ScanOfSpell(ns: seq<int>, layout: Layout, rest: string)
    requires FitsLayout(ns, layout)
    ensures Scan(Spell(ns, layout) + rest, layout) == Some(ns)
  {
    hide Decimal, Power10, Value;
    if layout != [] {
      var digits, after, tail := Decimal(ns[0], layout[0].width), layout[0].after, Spell(ns[1..], layout[1..]);
      assert Spell(ns, layout) + rest == digits + (after + (tail + rest));
      FirstSlot(digits, after, tail + rest);
      ValueOfDecimal(ns[0], layout[0].width);
      ScanOfSpell(ns[1..], layout[1..], rest);
      assert ns == [ns[0]] + ns[1..];
    }
  }

  /** What was read is written as it was read. */
  lemma {:induction false} SpellOfScan(s: string, layout: Layout)
    requires Scan(s, layout).Some?
    ensures FitsLayout(Scan(s, layout).value, layout)
    ensures Width(layout) <= |s| && Spell(Scan(s, layout).value, layout) == s[..Width(layout)]
  {
    hide Decimal, Power10, Value;
    if layout != [] {
      var w, k := layout[0].width, layout[0].width + |layout[0].after|;
      SpellOfScan(s[k..], layout[1..]);
      DecimalOfValue(s[..w]);
      var ns := Scan(s, layout).value;
      assert ns[1..] == Scan(s[k..], layout[1..]).value;
      assert s[..Width(layout)] == s[..w] + (s[w..k] + s[k..][..Width(layout[1..])]);
    }
  }

  /** Texts of one layout sort as their numbers do. */
  lemma {:induction false} SpellOrder(ms: seq<int>, ns: seq<int>, layout: Layout)
    requires FitsLayout(ms, layout) && FitsLayout(ns, layout)
    ensures Before(Spell(ms, layout), Spell(ns, layout)) <==> Lex(ms, ns)
  {
    if layout != [] {
      var w, after := layout[0].width, layout[0].after;
      var x, y := Spell(ms[1..], layout[1..]), Spell(ns[1..], layout[1..]);
      SpellOrder(ms[1..], ns[1..], layout[1..]);
      BeforeByHead(after, after, x, y);
      BeforeIrreflexive(after);
      DecimalsInOrder(ms[0], ns[0], w);
      BeforeByHead(Decimal(ms[0], w), Decimal(ns[0], w), after + x, after + y);
    }
  }

  /** A character that is no digit and in no separator is not written. */
  lemma {:induction false} NeverWritten(c: char, ns: seq<int>, layout: Layout)
    requires !IsDigit(c) && |ns| == |layout|
    requires forall i :: 0 <= i < |layout| ==> c !in layout[i].after
    ensures c !in Spell(ns, layout)
  {
    if layout != [] { NeverWritten(c, ns[1..], layout[1..]); }
  }
}
