/** Custom items' lore and attributes: lore managers contribute lines in
    descending priority, separated by blank lines on request, and the
    attributes are gathered from every component in order. */
module CustomItems {
  import opened Common
  import opened Sorting

  /** A line of lore: text, or the blank line `Component.newline()`. */
  datatype LoreLine = TextLine(text: string) | Newline

  /** A custom item component, with what it yields for the item stack at
      hand: whether it is a lore manager, its priority, its lines, whether it
      asks for a separator after them, and its attributes. */
  datatype ItemComponent = ItemComponent(
    isLoreManager: bool,
    priority: int,
    lines: seq<LoreLine>,
    separator: bool,
    attributes: seq<string>)

  /** `filterIsInstance<LoreManager>()`. */
  function LoreManagers(cs: seq<ItemComponent>): (r: seq<ItemComponent>)
    ensures |r| <= |cs|
    ensures forall c :: c in r <==> c in cs && c.isLoreManager
  {
    if |cs| == 0 then []
    else (if cs[0].isLoreManager then [cs[0]] else []) + LoreManagers(cs[1..])
  }

  function NegPriority(c: ItemComponent): int { -c.priority }

  /** `sortedByDescending { it.priority }`, which is stable: managers of
      equal priority keep their declaration order. */
  function ManagersInOrder(cs: seq<ItemComponent>): (r: seq<ItemComponent>)
    ensures multiset(r) == multiset(LoreManagers(cs))
    ensures forall i, j :: 0 <= i < j < |r| ==> r[i].priority >= r[j].priority
    ensures forall k :: WithKey(r, NegPriority, k) == WithKey(LoreManagers(cs), NegPriority, k)
  {
    var managers := LoreManagers(cs);
    forall k ensures WithKey(SortBy(managers, NegPriority), NegPriority, k) == WithKey(managers, NegPriority, k) {
      SortByStable(managers, NegPriority, k);
    }
    SortBy(managers, NegPriority)
  }

  /** What each manager contributes at its place in `ms`: its lines, then
      a separator if it asks for one and another manager follows. */
  function Blocks(ms: seq<ItemComponent>): seq<seq<LoreLine>>
  {
    seq(|ms|, k requires 0 <= k < |ms| => ms[k].lines + (if ms[k].separator && k + 1 < |ms| then [Newline] else []))
  }

  /** The loop of `assembleLore` over managers already in order: the lore
      is every manager's block, one after the other. */
  function Assemble(ms: seq<ItemComponent>): (lore: seq<LoreLine>)
    ensures lore == Flatten(Blocks(ms))
    ensures |lore| == TotalLines(ms) + SeparatorCount(ms)
  {
    if |ms| == 0 then []
    else
      var rest := Assemble(ms[1..]);
      var first := ms[0].lines + (if ms[0].separator && |ms| > 1 then [Newline] else []);
      assert Flatten(Blocks(ms)) == first + Flatten(Blocks(ms[1..])) by {
        assert Blocks(ms) == [first] + Blocks(ms[1..]);
        FlattenConcat([first], Blocks(ms[1..]));
        assert Flatten([first]) == first by { assert [first][..0] == []; }
      }
      ms[0].lines + (if ms[0].separator && |ms| > 1 then [Newline] else []) + rest
  }

  function TotalLines(ms: seq<ItemComponent>): nat
  {
    if |ms| == 0 then 0 else |ms[0].lines| + TotalLines(ms[1..])
  }

  /** The managers other than the last that ask for a separator. */
  function SeparatorCount(ms: seq<ItemComponent>): nat
  {
    if |ms| <= 1 then 0 else (if ms[0].separator then 1 else 0) + SeparatorCount(ms[1..])
  }

  function AllLines(ms: seq<ItemComponent>): seq<LoreLine>
  {
    if |ms| == 0 then [] else ms[0].lines + AllLines(ms[1..])
  }

  /** `assembleLore`. */
  function AssembleLore(cs: seq<ItemComponent>): (lore: seq<LoreLine>)
    ensures lore == Flatten(Blocks(ManagersInOrder(cs)))
    ensures |lore| == TotalLines(ManagersInOrder(cs)) + SeparatorCount(ManagersInOrder(cs))
    ensures LoreManagers(cs) == [] ==> lore == []
  {
    var ms := ManagersInOrder(cs);
    assert LoreManagers(cs) == [] ==> |multiset(ms)| == 0;
    Assemble(ms)
  }

  /** Without separator requests the lore is exactly every manager's lines,
      one manager after the other. */
  lemma {:induction false} NoSeparatorsIsConcatenation(ms: seq<ItemComponent>)
    requires forall i :: 0 <= i < |ms| ==> !ms[i].separator
    ensures Assemble(ms) == AllLines(ms)
  {
    if |ms| > 0 {
      NoSeparatorsIsConcatenation(ms[1..]);
    }
  }

  /** Lore assembly composes: the lore of `a + b` is the lore of `a`, the
      separator the last manager of `a` asks for when `b` follows, then the
      lore of `b`. With `Assemble([m]) == m.lines` this fixes every line. */
  lemma AssembleConcat(a: seq<ItemComponent>, b: seq<ItemComponent>)
    ensures Assemble(a + b) == Assemble(a)
      + (if |a| > 0 && |b| > 0 && a[|a| - 1].separator then [Newline] else []) + Assemble(b)
  {
    BlocksConcat(a, b);
  }

  lemma BlocksConcat(a: seq<ItemComponent>, b: seq<ItemComponent>)
    ensures Flatten(Blocks(a + b)) == Flatten(Blocks(a))
      + (if |a| > 0 && |b| > 0 && a[|a| - 1].separator then [Newline] else []) + Flatten(Blocks(b))
  {
    if |a| == 0 {
      assert a + b == b;
      assert Flatten(Blocks(a)) == [];
    } else if |b| == 0 {
      assert a + b == a;
      assert Flatten(Blocks(b)) == [];
    } else {
      BlocksConcatNonEmpty(a, b);
    }
  }

  lemma BlocksConcatNonEmpty(a: seq<ItemComponent>, b: seq<ItemComponent>)
    requires |a| > 0 && |b| > 0
    ensures Flatten(Blocks(a + b)) == Flatten(Blocks(a))
      + (if a[|a| - 1].separator then [Newline] else []) + Flatten(Blocks(b))
  {
    var n := |a| - 1;
    var ba := Blocks(a);
    var init := ba[..n];
    var last := a[n].lines + (if a[n].separator then [Newline] else []);
    assert Blocks(a + b) == (init + [last]) + Blocks(b) by {
      var l := Blocks(a + b);
      var r := (init + [last]) + Blocks(b);
      assert |l| == |r|;
      forall k | 0 <= k < |l| ensures l[k] == r[k] {
        if k < n {
          assert r[k] == ba[k];
        } else if k > n {
          assert r[k] == Blocks(b)[k - |a|];
        }
      }
    }
    assert Flatten(ba) == Flatten(init) + a[n].lines by {
      assert ba[n] == a[n].lines + [];
      assert a[n].lines + [] == a[n].lines;
      assert ba == init + [a[n].lines];
      FlattenConcat(init, [a[n].lines]);
      assert Flatten([a[n].lines]) == a[n].lines by { assert [a[n].lines][..0] == []; }
    }
    assert Flatten(init + [last]) == Flatten(init) + last by {
      FlattenConcat(init, [last]);
      assert Flatten([last]) == last by { assert [last][..0] == []; }
    }
    var sep := if a[n].separator then [Newline] else [];
    var fi, fb := Flatten(init), Flatten(Blocks(b));
    assert Flatten(Blocks(a + b)) == fi + last + fb by {
      FlattenConcat(init + [last], Blocks(b));
    }
    assert fi + last + fb == (fi + a[n].lines) + sep + fb;
  }

  /** A single manager contributes exactly its lines. */
  lemma AssembleSingle(m: ItemComponent)
    ensures Assemble([m]) == m.lines
  {
    assert [m][1..] == [];
  }

  /** Separators are never added after the last manager: when it has
      lines, the lore ends with its last line. */
  lemma EndsWithLastManagersLines(ms: seq<ItemComponent>)
    requires |ms| >= 1 && |ms[|ms| - 1].lines| >= 1
    ensures |Assemble(ms)| >= 1
    ensures Assemble(ms)[|Assemble(ms)| - 1] == ms[|ms| - 1].lines[|ms[|ms| - 1].lines| - 1]
  {
    var n := |ms| - 1;
    var last := ms[n];
    assert ms == ms[..n] + [last];
    assert Assemble(ms) == Assemble(ms[..n])
      + (if |ms[..n]| > 0 && ms[n - 1].separator then [Newline] else []) + last.lines by {
      AssembleConcat(ms[..n], [last]);
      AssembleSingle(last);
    }
  }

  /** A separator can still end the lore: when the last manager contributes
      no lines, the previous one's separator is the final line. */
  lemma TrailingSeparatorAfterEmptyManager(first: ItemComponent, last: ItemComponent)
    requires first.separator && last.lines == []
    ensures var lore := Assemble([first, last]);
      |lore| >= 1 && lore[|lore| - 1] == Newline
  {
    var ms := [first, last];
    assert ms[1..] == [last];
    assert Assemble([last]) == [];
    assert Assemble(ms) == first.lines + [Newline];
  }

  /** Some component among `cs` carries the attribute `a`. */
  predicate CarriedBy(cs: seq<ItemComponent>, a: string)
  {
    exists i :: 0 <= i < |cs| && a in cs[i].attributes
  }

  /** The attribute lists of `cs`, in component order. */
  function AttributeLists(cs: seq<ItemComponent>): seq<seq<string>>
  {
    seq(|cs|, i requires 0 <= i < |cs| => cs[i].attributes)
  }

  /** `getAttributes`: every component's attributes, in component order. */
  function GetAttributes(cs: seq<ItemComponent>): (r: seq<string>)
    ensures r == Flatten(AttributeLists(cs))
    ensures forall a :: a in r <==> CarriedBy(cs, a)
    ensures |r| == TotalAttributes(cs)
  {
    if |cs| == 0 then []
    else
      var rest := GetAttributes(cs[1..]);
      assert AttributeLists(cs) == [cs[0].attributes] + AttributeLists(cs[1..]);
      FlattenConcat([cs[0].attributes], AttributeLists(cs[1..]));
      assert forall a :: CarriedBy(cs, a) <==> a in cs[0].attributes || CarriedBy(cs[1..], a) by {
        forall a ensures CarriedBy(cs, a) <==> a in cs[0].attributes || CarriedBy(cs[1..], a) {
          if CarriedBy(cs[1..], a) {
            var i :| 0 <= i < |cs[1..]| && a in cs[1..][i].attributes;
            assert cs[i + 1] == cs[1..][i];
          }
          if CarriedBy(cs, a) {
            var i :| 0 <= i < |cs| && a in cs[i].attributes;
            if i > 0 { assert cs[1..][i - 1] == cs[i]; }
          }
        }
      }
      cs[0].attributes + rest
  }

  /** `flatMap` composes: the attributes of `a + b` are those of `a`, then
      those of `b`. */
  lemma GetAttributesConcat(a: seq<ItemComponent>, b: seq<ItemComponent>)
    ensures GetAttributes(a + b) == GetAttributes(a) + GetAttributes(b)
  {
    assert AttributeLists(a + b) == AttributeLists(a) + AttributeLists(b);
    FlattenConcat(AttributeLists(a), AttributeLists(b));
  }

  /** A single component contributes exactly its attributes. */
  lemma GetAttributesSingle(c: ItemComponent)
    ensures GetAttributes([c]) == c.attributes
  {
    assert [c][1..] == [];
  }

  function TotalAttributes(cs: seq<ItemComponent>): nat
  {
    if |cs| == 0 then 0 else |cs[0].attributes| + TotalAttributes(cs[1..])
  }
}
