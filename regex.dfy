/** The part of JavaScript's `RegExp.prototype.test` that the credential
    validators use: a pattern anchored with `^` and `$`, optionally opened by
    lookaheads `(?=...)`, whose items are character classes (`[...]`, `\d`,
    `.`) under a quantifier (`{m,n}`, `{m,}`, `*`, or none).  Matching follows
    the engine's strategy: each quantified item first takes as many
    characters as it may, then gives them back one at a time. */
module Regex {

  import opened Common

  /** A character class: `.` (any character except a line terminator, since
      the validators' patterns carry no `s` flag) or a bracket list of
      inclusive ranges; a single character `c` is the range `(c, c)`. */
  datatype CharClass = Dot | Ranges(ranges: seq<(char, char)>)

  /** A class under a quantifier: between `min` and `max` repetitions
      (`max == None` means unbounded). */
  datatype Item = Item(cls: CharClass, min: nat, max: Option<nat>)

  /** `^(?=ahead[0])...(?=ahead[n-1])body$` */
  datatype Pattern = Pattern(ahead: seq<seq<Item>>, body: seq<Item>)

  /** The line terminators of ECMAScript: LF, CR, LS and PS. */
  predicate IsLineTerminator(c: char) {
    c == '\n' || c == '\r' || c == '\U{2028}' || c == '\U{2029}'
  }

  predicate InClass(c: char, cls: CharClass) {
    match cls
    case Dot => !IsLineTerminator(c)
    case Ranges(rs) => exists i :: 0 <= i < |rs| && rs[i].0 <= c <= rs[i].1
  }

  predicate WithinMax(n: nat, max: Option<nat>) {
    max.None? || n <= max.value
  }

  /** The length of the longest prefix of `s` whose characters all lie in `cls`. */
  function Run(cls: CharClass, s: string): (n: nat)
    ensures n <= |s|
    ensures forall i :: 0 <= i < n ==> InClass(s[i], cls)
    ensures n < |s| ==> !InClass(s[n], cls)
  {
    if s == [] || !InClass(s[0], cls) then 0 else 1 + Run(cls, s[1..])
  }

  /** How many characters the item takes before any backtracking. */
  function Greedy(it: Item, s: string): (n: nat)
    ensures n <= |s| && WithinMax(n, it.max)
    ensures forall i :: 0 <= i < n ==> InClass(s[i], it.cls)
    ensures n < |s| && (it.max.None? || n < it.max.value) ==> !InClass(s[n], it.cls)
  {
    var r := Run(it.cls, s);
    if it.max.Some? && it.max.value < r then it.max.value else r
  }

  /** Does `items` match a prefix of `s` (the whole of `s` when `toEnd`,
      i.e. when the sequence is followed by `$`)? */
  function Match(items: seq<Item>, s: string, toEnd: bool): bool
    decreases |items|, |s| + 1
  {
    if items == [] then !toEnd || s == []
    else Backtrack(items, s, toEnd, Greedy(items[0], s))
  }

  /** The first item has taken `k` characters; try the rest, then give one
      character back, down to the item's minimum. */
  function Backtrack(items: seq<Item>, s: string, toEnd: bool, k: nat): bool
    requires items != [] && k <= |s|
    decreases |items|, k
  {
    || (items[0].min <= k && Match(items[1..], s[k..], toEnd))
    || (items[0].min < k && Backtrack(items, s, toEnd, k - 1))
  }

  /** `pattern.test(s)` for a pattern anchored at both ends. */
  predicate Test(p: Pattern, s: string) {
    && (forall i :: 0 <= i < |p.ahead| ==> Match(p.ahead[i], s, false))
    && Match(p.body, s, true)
  }

  // ---------------------------------------------------------------------
  // What a single quantified class matches

  lemma {:induction false} BacktrackOneToEnd(it: Item, s: string, k: nat)
    requires k <= |s|
    ensures Backtrack([it], s, true, k) <==> it.min <= |s| <= k
  {
    assert [it][1..] == [];
    if it.min < k {
      BacktrackOneToEnd(it, s, k - 1);
    }
  }

  /** `^[cls]{min,max}$` accepts exactly the strings of admissible length
      made of characters of the class. */
  lemma MatchOneToEnd(it: Item, s: string)
    ensures Match([it], s, true) <==>
      it.min <= |s| && WithinMax(|s|, it.max) && forall i :: 0 <= i < |s| ==> InClass(s[i], it.cls)
  {
    var g := Greedy(it, s);
    BacktrackOneToEnd(it, s, g);
    if it.min <= |s| && WithinMax(|s|, it.max) && (forall i :: 0 <= i < |s| ==> InClass(s[i], it.cls)) {
      assert g == |s|;
    }
  }

  /** An item that must take exactly one character, not followed by `$`,
      matches exactly when the first character is in its class. */
  lemma MatchSingleOpen(cls: CharClass, s: string)
    ensures Match([Item(cls, 1, Some(1))], s, false) <==> |s| > 0 && InClass(s[0], cls)
  {
    var it := Item(cls, 1, Some(1));
    assert [it][1..] == [];
    var g := Greedy(it, s);
    assert Match([it], s, false) == Backtrack([it], s, false, g);
    if |s| > 0 && InClass(s[0], cls) {
      assert g == 1;
    } else {
      assert g == 0;
    }
  }

  /** The lookahead `(?=.*[cls])`, written as the two items `.*` and `[cls]`. */
  function Somewhere(cls: CharClass): seq<Item> {
    [Item(Dot, 0, None), Item(cls, 1, Some(1))]
  }

  lemma {:induction false} BacktrackSomewhere(cls: CharClass, s: string, k: nat)
    requires k <= |s|
    ensures Backtrack(Somewhere(cls), s, false, k) <==>
      exists j :: 0 <= j <= k && j < |s| && InClass(s[j], cls)
  {
    var items := Somewhere(cls);
    assert items[1..] == [Item(cls, 1, Some(1))];
    MatchSingleOpen(cls, s[k..]);
    if k > 0 {
      BacktrackSomewhere(cls, s, k - 1);
      if exists j :: 0 <= j <= k && j < |s| && InClass(s[j], cls) {
        var j :| 0 <= j <= k && j < |s| && InClass(s[j], cls);
        if j < k {
          assert exists j' :: 0 <= j' <= k - 1 && j' < |s| && InClass(s[j'], cls);
        }
      }
    } else {
      if exists j :: 0 <= j <= k && j < |s| && InClass(s[j], cls) {
        var j :| 0 <= j <= k && j < |s| && InClass(s[j], cls);
        assert j == 0;
      }
    }
  }

  /** On a string free of line terminators, `(?=.*[cls])` holds exactly when
      some character of the string is in the class. */
  lemma MatchSomewhere(cls: CharClass, s: string)
    requires forall i :: 0 <= i < |s| ==> !IsLineTerminator(s[i])
    ensures Match(Somewhere(cls), s, false) <==> exists j :: 0 <= j < |s| && InClass(s[j], cls)
  {
    var g := Greedy(Item(Dot, 0, None), s);
    assert g == |s|;
    BacktrackSomewhere(cls, s, g);
  }
}
