/** Joining strings with a separator. The builder joins twice with the
    same `StringBuilder` idiom: for each item it appends the separator
    only if the buffer is non-empty so far, then the item. This module
    defines that fold, an ordinary reference join, the exact relation
    between the two, and a split that undoes the reference join. */
module Joins {

  /** The `StringBuilder` fold: append `sep` when `acc` is non-empty,
      then the item, for each item in order. */
  function AppendJoin(acc: string, sep: string, items: seq<string>): (r: string)
    decreases |items|
  {
    if |items| == 0 then acc
    else AppendJoin(acc + (if |acc| == 0 then "" else sep) + items[0], sep, items[1..])
  }

  /** Each item preceded by `sep`. */
  function Prefixed(sep: string, items: seq<string>): (r: string)
    decreases |items|
  {
    if |items| == 0 then "" else sep + items[0] + Prefixed(sep, items[1..])
  }

  /** The reference join: items separated by `sep`, "" for no items. */
  function Join(sep: string, items: seq<string>): (r: string) {
    if |items| == 0 then "" else items[0] + Prefixed(sep, items[1..])
  }

  /** `items` without its leading empty strings. */
  function DropLeadingEmpty(items: seq<string>): (r: seq<string>)
    ensures |r| <= |items|
    ensures r == items[|items| - |r|..]
    ensures |r| > 0 ==> r[0] != ""
    ensures forall i :: 0 <= i < |items| - |r| ==> items[i] == ""
  {
    if |items| == 0 then items
    else if items[0] == "" then DropLeadingEmpty(items[1..])
    else items
  }

  /** Two items joined: the separator between them. */
  lemma JoinPair(sep: string, x: string, y: string)
    ensures Join(sep, [x, y]) == x + sep + y
  {
    assert [x, y][1..] == [y];
    assert [y][1..] == [];
    assert Prefixed(sep, [y]) == sep + y + "";
    assert sep + y + "" == sep + y;
  }

  /** One item joined is that item, even when it is empty. */
  lemma JoinSingle(sep: string, x: string)
    ensures Join(sep, DropLeadingEmpty([x])) == x
  {
    assert [x][1..] == [];
    if x != "" {
      assert x + "" == x;
    }
  }

  lemma {:induction false} AppendJoinNonEmpty(acc: string, sep: string, items: seq<string>)
    requires acc != ""
    ensures AppendJoin(acc, sep, items) == acc + Prefixed(sep, items)
    decreases |items|
  {
    if |items| > 0 {
      var acc' := acc + sep + items[0];
      AppendJoinNonEmpty(acc', sep, items[1..]);
      assert acc' + Prefixed(sep, items[1..]) == acc + Prefixed(sep, items);
    }
  }

  /** The fold started on an empty buffer is the reference join of the
      items once the leading empty ones are dropped: those contribute
      neither text nor a separator. */
  lemma {:induction false} AppendJoinIsJoin(sep: string, items: seq<string>)
    ensures AppendJoin("", sep, items) == Join(sep, DropLeadingEmpty(items))
    decreases |items|
  {
    if |items| > 0 {
      if items[0] == "" {
        assert "" + "" + items[0] == "";
        AppendJoinIsJoin(sep, items[1..]);
      } else {
        assert "" + "" + items[0] == items[0];
        AppendJoinNonEmpty(items[0], sep, items[1..]);
      }
    }
  }

  /** With no empty item, the fold is exactly the reference join. */
  lemma AppendJoinNoEmpty(sep: string, items: seq<string>)
    requires forall i :: 0 <= i < |items| ==> items[i] != ""
    ensures AppendJoin("", sep, items) == Join(sep, items)
  {
    AppendJoinIsJoin(sep, items);
    var r := DropLeadingEmpty(items);
    assert |r| == |items|;
  }

  // ---------------------------------------------------------------------
  // Splitting at a separator character
  // ---------------------------------------------------------------------

  /** The pieces of `s` between occurrences of `c`; one piece when `c`
      does not occur. */
  function Split(s: string, c: char): (r: seq<string>)
    ensures 0 < |r|
  {
    if |s| == 0 then [""]
    else
      var rest := Split(s[1..], c);
      if s[0] == c then [""] + rest else [[s[0]] + rest[0]] + rest[1..]
  }

  lemma {:induction false} SplitNoSeparator(x: string, c: char)
    requires c !in x
    ensures Split(x, c) == [x]
    decreases |x|
  {
    if |x| > 0 {
      SplitNoSeparator(x[1..], c);
      assert [x[0]] + x[1..] == x;
    }
  }

  lemma {:induction false} SplitAtFirst(x: string, c: char, y: string)
    requires c !in x
    ensures Split(x + [c] + y, c) == [x] + Split(y, c)
    decreases |x|
  {
    var s := x + [c] + y;
    if |x| == 0 {
      assert s[1..] == y;
    } else {
      assert s[1..] == x[1..] + [c] + y;
      SplitAtFirst(x[1..], c, y);
      assert [x[0]] + x[1..] == x;
    }
  }

  /** Splitting a non-empty join at a separator that occurs in no item
      gives back the items. */
  lemma {:induction false} SplitJoin(c: char, items: seq<string>)
    requires 0 < |items|
    requires forall i :: 0 <= i < |items| ==> c !in items[i]
    ensures Split(Join([c], items), c) == items
    decreases |items|
  {
    if |items| == 1 {
      assert Join([c], items) == items[0];
      SplitNoSeparator(items[0], c);
    } else {
      var tail := items[1..];
      assert Prefixed([c], tail) == [c] + Join([c], tail);
      assert Join([c], items) == items[0] + [c] + Join([c], tail);
      SplitAtFirst(items[0], c, Join([c], tail));
      SplitJoin(c, tail);
      assert [items[0]] + tail == items;
    }
  }
}
