/**
 * The shopping list of `purchases_download` (recipes/views.py): the
 * ingredients of every recipe the user has put in their shopping list, grouped
 * by (ingredient title, dimension), their quantities summed without rounding,
 * ordered by title.
 *
 * Quantities are exact (`real` stands for `Decimal`). The grouping is built by
 * inserting each joined row into a list kept strictly sorted by (title,
 * dimension), adding to the entry of its group when there is one.
 */
module ShoppingList {
  import opened Store

  /** The grouping key of the query: `recipe__ingredients__title`, `..._dimension`. */
  datatype Key = Key(title: string, dimension: string)

  /** One joined row: an ingredient of a purchased recipe and its quantity. */
  datatype Line = Line(key: Key, quantity: real)

  /** One row of the result, with its `amount` annotation. */
  datatype Total = Total(key: Key, amount: real)

  /** Lexicographic order on strings, by code point. */
  predicate LexLess(a: string, b: string)
  {
    if a == [] then b != []
    else b != [] && (a[0] < b[0] || (a[0] == b[0] && LexLess(a[1..], b[1..])))
  }

  lemma {:induction false} LexLessIrreflexive(a: string)
    ensures !LexLess(a, a)
  {
    if a != [] {
      LexLessIrreflexive(a[1..]);
    }
  }

  lemma {:induction false} LexLessAsymmetric(a: string, b: string)
    requires LexLess(a, b)
    ensures !LexLess(b, a)
  {
    if a != [] && a[0] == b[0] {
      LexLessAsymmetric(a[1..], b[1..]);
    }
  }

  lemma {:induction false} LexLessTransitive(a: string, b: string, c: string)
    requires LexLess(a, b) && LexLess(b, c)
    ensures LexLess(a, c)
  {
    if a != [] && a[0] == b[0] && b[0] == c[0] {
      LexLessTransitive(a[1..], b[1..], c[1..]);
    }
  }

  lemma {:induction false} LexLessTotal(a: string, b: string)
    ensures a == b || LexLess(a, b) || LexLess(b, a)
  {
    if a != [] && b != [] && a[0] == b[0] {
      LexLessTotal(a[1..], b[1..]);
      assert a == [a[0]] + a[1..] && b == [b[0]] + b[1..];
    }
  }

  /** Order by title, then by dimension. */
  predicate KeyLess(a: Key, b: Key)
  {
    LexLess(a.title, b.title) || (a.title == b.title && LexLess(a.dimension, b.dimension))
  }

  lemma KeyLessIrreflexive(a: Key)
    ensures !KeyLess(a, a)
  {
    LexLessIrreflexive(a.title);
    LexLessIrreflexive(a.dimension);
  }

  lemma KeyLessTransitive(a: Key, b: Key, c: Key)
    requires KeyLess(a, b) && KeyLess(b, c)
    ensures KeyLess(a, c)
  {
    if LexLess(a.title, b.title) && LexLess(b.title, c.title) {
      LexLessTransitive(a.title, b.title, c.title);
    } else if a.title == b.title && b.title == c.title {
      LexLessTransitive(a.dimension, b.dimension, c.dimension);
    }
  }

  lemma KeyLessTotal(a: Key, b: Key)
    ensures a == b || KeyLess(a, b) || KeyLess(b, a)
  {
    LexLessTotal(a.title, b.title);
    LexLessTotal(a.dimension, b.dimension);
  }

  ghost predicate StrictlySorted(s: seq<Total>)
  {
    forall i, j :: 0 <= i < j < |s| ==> KeyLess(s[i].key, s[j].key)
  }

  function KeysOf(s: seq<Total>): set<Key>
  {
    set t | t in s :: t.key
  }

  /** The amount listed for a key, 0 when the key is not listed. */
  function AmountOf(s: seq<Total>, k: Key): (r: real)
    ensures k !in KeysOf(s) ==> r == 0.0
  {
    if s == [] then 0.0
    else if s[0].key == k then s[0].amount
    else
      assert KeysOf(s[1..]) <= KeysOf(s);
      AmountOf(s[1..], k)
  }

  /** Every key of a sorted list after its head is greater than the head's. */
  lemma SortedTail(s: seq<Total>)
    requires StrictlySorted(s) && s != []
    ensures StrictlySorted(s[1..])
    ensures forall k :: k in KeysOf(s[1..]) ==> KeyLess(s[0].key, k)
    ensures KeysOf(s) == {s[0].key} + KeysOf(s[1..])
  {
    forall k | k in KeysOf(s[1..]) ensures KeyLess(s[0].key, k) {
      var t :| t in s[1..] && t.key == k;
      var j :| 0 <= j < |s[1..]| && s[1..][j] == t;
      assert s[j + 1] == t;
    }
    assert s == [s[0]] + s[1..];
  }

  /** A group whose key precedes every key of a sorted list can go in front of it. */
  lemma SortedCons(t: Total, rest: seq<Total>)
    requires StrictlySorted(rest)
    requires forall k :: k in KeysOf(rest) ==> KeyLess(t.key, k)
    ensures StrictlySorted([t] + rest)
    ensures KeysOf([t] + rest) == {t.key} + KeysOf(rest)
  {
    var r := [t] + rest;
    forall i, j | 0 <= i < j < |r| ensures KeyLess(r[i].key, r[j].key) {
      if i == 0 {
        assert r[j] == rest[j - 1] && r[j] in rest;
      } else {
        assert r[i] == rest[i - 1] && r[j] == rest[j - 1];
      }
    }
    assert r[0] in r && r[1..] == rest;
  }

  /** Adding one joined row to the sorted groups. */
  function AddLine(s: seq<Total>, l: Line): (r: seq<Total>)
    requires StrictlySorted(s)
    ensures StrictlySorted(r)
    ensures KeysOf(r) == KeysOf(s) + {l.key}
    ensures forall k :: AmountOf(r, k) == AmountOf(s, k) + (if k == l.key then l.quantity else 0.0)
  {
    if s == [] then
      var r := [Total(l.key, l.quantity)];
      assert KeysOf(r) == {l.key} by { assert r[0] in r; }
      r
    else
      SortedTail(s);
      KeyLessTotal(l.key, s[0].key);
      if s[0].key == l.key then
        var r := [Total(l.key, s[0].amount + l.quantity)] + s[1..];
        SortedCons(r[0], s[1..]);
        r
      else if KeyLess(l.key, s[0].key) then
        forall k | k in KeysOf(s) ensures KeyLess(l.key, k) {
          if k != s[0].key { KeyLessTransitive(l.key, s[0].key, k); }
        }
        assert l.key !in KeysOf(s) by { KeyLessIrreflexive(l.key); }
        SortedCons(Total(l.key, l.quantity), s);
        [Total(l.key, l.quantity)] + s
      else
        var rest := AddLine(s[1..], l);
        SortedCons(s[0], rest);
        [s[0]] + rest
  }

  function LineKeys(lines: seq<Line>): set<Key>
  {
    set l | l in lines :: l.key
  }

  /** The reference definition: the sum of the quantities of the rows of one group. */
  function SumFor(lines: seq<Line>, k: Key): real
  {
    if lines == [] then 0.0
    else SumFor(lines[..|lines| - 1], k) + (if lines[|lines| - 1].key == k then lines[|lines| - 1].quantity else 0.0)
  }

  /** The group-by-sum over the joined rows, sorted by (title, dimension). */
  function Aggregate(lines: seq<Line>): (r: seq<Total>)
    ensures StrictlySorted(r)
    ensures KeysOf(r) == LineKeys(lines)
    ensures forall k :: AmountOf(r, k) == SumFor(lines, k)
  {
    if lines == [] then []
    else
      var init := lines[..|lines| - 1];
      assert lines == init + [lines[|lines| - 1]];
      assert LineKeys(lines) == LineKeys(init) + {lines[|lines| - 1].key};
      AddLine(Aggregate(init), lines[|lines| - 1])
  }

  /** In a sorted list, a key's amount is the one listed beside it. */
  lemma {:induction false} AmountOfListed(s: seq<Total>, i: nat)
    requires StrictlySorted(s) && i < |s|
    ensures AmountOf(s, s[i].key) == s[i].amount
  {
    if i > 0 {
      KeyLessIrreflexive(s[0].key);
      assert s[0].key != s[i].key;
      SortedTail(s);
      assert s[1..][i - 1] == s[i];
      AmountOfListed(s[1..], i - 1);
    }
  }

  /** The joined rows of one recipe: its RecipeIngredient rows with their ingredient's dimension. */
  function RecipeLines(joinRows: seq<RecipeIngredient>, catalogue: map<string, string>, rid: RecipeId)
    : (r: seq<Line>)
    requires forall w :: w in joinRows ==> w.ingredient in catalogue
    ensures forall t, d, q :: Line(Key(t, d), q) in r <==>
      exists w :: w in joinRows && w.recipe == rid && w.ingredient == t && catalogue[t] == d && w.quantity == q
  {
    if joinRows == [] then []
    else
      var w := joinRows[0];
      var rest := RecipeLines(joinRows[1..], catalogue, rid);
      assert forall v :: v in joinRows <==> v == w || v in joinRows[1..];
      (if w.recipe == rid then [Line(Key(w.ingredient, catalogue[w.ingredient]), w.quantity)] else [])
      + rest
  }

  /** The rows the query joins: purchases of `user`, their recipes' ingredient rows. */
  function PurchasedLines(purchases: seq<Pair>, joinRows: seq<RecipeIngredient>,
                          catalogue: map<string, string>, user: UserId): (r: seq<Line>)
    requires forall w :: w in joinRows ==> w.ingredient in catalogue
    ensures (forall p :: p in purchases ==> p.user != user) ==> r == []
    ensures forall t, d, q :: Line(Key(t, d), q) in r <==>
      exists p, w :: p in purchases && p.user == user && w in joinRows && w.recipe == p.target
        && w.ingredient == t && catalogue[t] == d && w.quantity == q
  {
    if purchases == [] then []
    else
      (if purchases[0].user == user then RecipeLines(joinRows, catalogue, purchases[0].target) else [])
      + PurchasedLines(purchases[1..], joinRows, catalogue, user)
  }

  /**
   * `purchases_download`'s `ingredients`: one row per (title, dimension) among
   * the user's purchased recipes, whose amount is the exact sum of that group's
   * quantities, in order of title. A user without purchases gets no rows.
   */
  function PurchasesDownload(purchases: seq<Pair>, joinRows: seq<RecipeIngredient>,
                             catalogue: map<string, string>, user: UserId): (r: seq<Total>)
    requires forall w :: w in joinRows ==> w.ingredient in catalogue
    ensures var lines := PurchasedLines(purchases, joinRows, catalogue, user);
      && KeysOf(r) == LineKeys(lines)
      && (forall i, j :: 0 <= i < j < |r| ==> r[i].key != r[j].key)
      && (forall i :: 0 <= i < |r| ==> r[i].amount == SumFor(lines, r[i].key))
      && (forall i, j :: 0 <= i < j < |r| ==> !LexLess(r[j].key.title, r[i].key.title))
    ensures (forall p :: p in purchases ==> p.user != user) ==> r == []
  {
    var lines := PurchasedLines(purchases, joinRows, catalogue, user);
    var r := Aggregate(lines);
    assert forall i, j :: 0 <= i < j < |r| ==> r[i].key != r[j].key && !LexLess(r[j].key.title, r[i].key.title) by {
      forall i, j | 0 <= i < j < |r|
        ensures r[i].key != r[j].key && !LexLess(r[j].key.title, r[i].key.title)
      {
        KeyLessIrreflexive(r[i].key);
        if LexLess(r[i].key.title, r[j].key.title) {
          LexLessAsymmetric(r[i].key.title, r[j].key.title);
        } else {
          LexLessIrreflexive(r[i].key.title);
        }
      }
    }
    assert forall i :: 0 <= i < |r| ==> r[i].amount == SumFor(lines, r[i].key) by {
      forall i | 0 <= i < |r| ensures r[i].amount == SumFor(lines, r[i].key) {
        AmountOfListed(r, i);
      }
    }
    r
  }
}
