/**
 * The ingredient part of the recipe form (recipes/utils.py, `get_ingredients`
 * and the quantity normalisation inside `save_recipe`).
 *
 * The form posts pairs of fields `nameIngredient_<n>` (the ingredient's title)
 * and `valueIngredient_<n>` (its quantity, as typed). Parsing turns them into a
 * dictionary from ingredient title to quantity text.
 */
module IngredientForm {
  import opened Wrappers

  /**
   * A posted form as `request.POST.items()` gives it: one pair per key, in the
   * order each key first appeared, carrying the last value posted under that
   * key (a QueryDict merges repeated keys this way, and `request.POST[k]`
   * reads the same last value). The methods that read a form therefore
   * require `DistinctKeys`.
   */
  type Post = seq<(string, string)>

  /**
   * A Python dict from string to string, kept in insertion order. Assigning to
   * a key that is present replaces its value where it stands.
   */
  type Dict = seq<(string, string)>

  const NamePrefix: string := "nameIngredient"
  const ValuePrefix: string := "valueIngredient_"

  /** Each key occurs once, as in a QueryDict or a dict. */
  ghost predicate DistinctKeys(d: seq<(string, string)>)
  {
    forall i, j :: 0 <= i < j < |d| ==> d[i].0 != d[j].0
  }

  function Keys(d: seq<(string, string)>): set<string>
  {
    set i | 0 <= i < |d| :: d[i].0
  }

  lemma KeysCons(d: seq<(string, string)>)
    requires d != []
    ensures Keys(d) == {d[0].0} + Keys(d[1..])
  {
    forall x | x in Keys(d) ensures x in {d[0].0} + Keys(d[1..]) {
      var i :| 0 <= i < |d| && d[i].0 == x;
      if i > 0 { assert d[1..][i - 1].0 == x; }
    }
    forall x | x in Keys(d[1..]) ensures x in Keys(d) {
      var i :| 0 <= i < |d[1..]| && d[1..][i].0 == x;
      assert d[i + 1].0 == x;
    }
  }

  lemma DistinctKeysCons(d: seq<(string, string)>)
    requires d != []
    ensures DistinctKeys(d) <==> d[0].0 !in Keys(d[1..]) && DistinctKeys(d[1..])
  {
    if DistinctKeys(d) {
      forall i | 0 <= i < |d[1..]| ensures d[1..][i].0 != d[0].0 {
        assert d[1..][i] == d[i + 1];
      }
      forall i, j | 0 <= i < j < |d[1..]| ensures d[1..][i].0 != d[1..][j].0 {
        assert d[1..][i] == d[i + 1] && d[1..][j] == d[j + 1];
      }
    }
    if d[0].0 !in Keys(d[1..]) && DistinctKeys(d[1..]) {
      forall i, j | 0 <= i < j < |d| ensures d[i].0 != d[j].0 {
        if i == 0 {
          assert d[j].0 == d[1..][j - 1].0;
        } else {
          assert d[i] == d[1..][i - 1] && d[j] == d[1..][j - 1];
        }
      }
    }
  }

  /** `d[k]`: the value stored under `k`, if any. */
  function Lookup(d: seq<(string, string)>, k: string): (r: Option<string>)
    ensures r.None? <==> k !in Keys(d)
    ensures DistinctKeys(d) ==> forall i :: 0 <= i < |d| && d[i].0 == k ==> r == Some(d[i].1)
  {
    if d == [] then None
    else
      KeysCons(d);
      DistinctKeysCons(d);
      if d[0].0 == k then Some(d[0].1)
      else
        assert forall i :: 0 < i < |d| ==> d[i] == d[1..][i - 1];
        Lookup(d[1..], k)
  }

  /** `d[k] = v`. */
  function Put(d: Dict, k: string, v: string): (r: Dict)
    ensures Keys(r) == Keys(d) + {k}
    ensures Lookup(r, k) == Some(v)
    ensures forall k' :: k' != k ==> Lookup(r, k') == Lookup(d, k')
    ensures DistinctKeys(d) ==> DistinctKeys(r)
    ensures k !in Keys(d) ==> r == d + [(k, v)]
    ensures k in Keys(d) ==> |r| == |d| && forall i :: 0 <= i < |d| ==> r[i].0 == d[i].0
  {
    if d == [] then
      AssignedEmpty(k, v);
      [(k, v)]
    else if d[0].0 == k then
      AssignedHead(d, v);
      [(k, v)] + d[1..]
    else
      var rest := Put(d[1..], k, v);
      AssignedTail(d, k, v, rest);
      [d[0]] + rest
  }

  /** `r` is `d` after `d[k] = v`: the contract of `Put`, one case at a time. */
  ghost predicate Assigned(d: Dict, k: string, v: string, r: Dict)
  {
    && Keys(r) == Keys(d) + {k}
    && Lookup(r, k) == Some(v)
    && (forall k' :: k' != k ==> Lookup(r, k') == Lookup(d, k'))
    && (DistinctKeys(d) ==> DistinctKeys(r))
    && (k !in Keys(d) ==> r == d + [(k, v)])
    && (k in Keys(d) ==> |r| == |d| && forall i :: 0 <= i < |d| ==> r[i].0 == d[i].0)
  }

  lemma AssignedEmpty(k: string, v: string)
    ensures Assigned([], k, v, [(k, v)])
  {
    KeysCons([(k, v)]);
    assert [(k, v)][1..] == [];
  }

  /** Assigning to the first key replaces its value where it stands. */
  lemma AssignedHead(d: Dict, v: string)
    requires d != []
    ensures Assigned(d, d[0].0, v, [(d[0].0, v)] + d[1..])
  {
    var r := [(d[0].0, v)] + d[1..];
    assert r[1..] == d[1..];
    KeysCons(d);
    KeysCons(r);
    DistinctKeysCons(d);
    DistinctKeysCons(r);
  }

  /** Assigning past the first key keeps the first pair in front. */
  lemma AssignedTail(d: Dict, k: string, v: string, rest: Dict)
    requires d != [] && d[0].0 != k
    requires Assigned(d[1..], k, v, rest)
    ensures Assigned(d, k, v, [d[0]] + rest)
  {
    var r := [d[0]] + rest;
    assert r[1..] == rest;
    KeysCons(d);
    KeysCons(r);
    DistinctKeysCons(d);
    DistinctKeysCons(r);
    TailKeepsOrder(d, k, v, rest);
  }

  /** The order part of `AssignedTail`: the pairs before the assigned key stay where they are. */
  lemma TailKeepsOrder(d: Dict, k: string, v: string, rest: Dict)
    requires d != [] && d[0].0 != k
    requires k !in Keys(d[1..]) ==> rest == d[1..] + [(k, v)]
    requires k in Keys(d[1..]) ==> |rest| == |d| - 1 && forall i :: 0 <= i < |d| - 1 ==> rest[i].0 == d[1..][i].0
    ensures k !in Keys(d) ==> [d[0]] + rest == d + [(k, v)]
    ensures k in Keys(d) ==> |[d[0]] + rest| == |d| && forall i :: 0 <= i < |d| ==> ([d[0]] + rest)[i].0 == d[i].0
  {
    KeysCons(d);
    var r := [d[0]] + rest;
    if k in Keys(d) {
      forall i | 0 <= i < |d| ensures r[i].0 == d[i].0 {
        if i > 0 {
          assert r[i] == rest[i - 1] && d[1..][i - 1] == d[i];
        }
      }
    } else {
      assert d == [d[0]] + d[1..];
    }
  }

  /** Python's `s.startswith(prefix)`. */
  predicate StartsWith(s: string, prefix: string)
  {
    |prefix| <= |s| && s[..|prefix|] == prefix
  }

  /** Python's `s.find(c)`, with `None` for -1. */
  function IndexOf(s: string, c: char): (r: Option<nat>)
    ensures r.None? <==> c !in s
    ensures r.Some? ==> r.value < |s| && s[r.value] == c && c !in s[..r.value]
  {
    if s == [] then None
    else if s[0] == c then Some(0)
    else
      match IndexOf(s[1..], c)
      case None => None
      case Some(i) =>
        assert s[..i + 1] == [s[0]] + s[1..][..i];
        Some(i + 1)
  }

  /**
   * `num` is the second piece of `key.split('_')`: it starts right after the
   * first underscore, at `at + 1`, and runs to the next underscore or the end.
   */
  ghost predicate SecondPieceAt(key: string, at: nat, num: string)
  {
    && at < |key| && key[at] == '_' && '_' !in key[..at]
    && at + 1 + |num| <= |key| && key[at + 1..at + 1 + |num|] == num && '_' !in num
    && (at + 1 + |num| == |key| || key[at + 1 + |num|] == '_')
  }

  /** `key.split('_')[1]`; `None` where Python raises IndexError. */
  function SecondPiece(key: string): (r: Option<string>)
    ensures r.None? <==> '_' !in key
    ensures r.Some? ==> exists at :: SecondPieceAt(key, at, r.value)
  {
    match IndexOf(key, '_')
    case None => None
    case Some(at) =>
      var rest := key[at + 1..];
      match IndexOf(rest, '_')
      case None =>
        assert SecondPieceAt(key, at, rest);
        Some(rest)
      case Some(j) =>
        assert rest[..j] == key[at + 1..at + 1 + j];
        assert SecondPieceAt(key, at, rest[..j]);
        Some(rest[..j])
  }

  /** Why parsing stops: Python's IndexError from `split` or KeyError from the lookup. */
  datatype ParseError = NoUnderscore(key: string) | MissingValue(key: string)

  predicate IsNameField(field: (string, string))
  {
    StartsWith(field.0, NamePrefix)
  }

  /**
   * What the loop body does with field `i`: nothing (`Success(None)`), an
   * assignment `ingredients[name] = quantity` (`Success(Some((name, quantity)))`),
   * or the exception it raises.
   */
  function FieldEntry(post: Post, i: nat): (r: Result<Option<(string, string)>, ParseError>)
    requires i < |post|
    ensures !IsNameField(post[i]) ==> r == Success(None)
    ensures IsNameField(post[i]) && '_' !in post[i].0 ==> r == Failure(NoUnderscore(post[i].0))
    ensures IsNameField(post[i]) && '_' in post[i].0 ==>
      var key := ValuePrefix + SecondPiece(post[i].0).value;
      && (r.Failure? <==> Lookup(post, key).None?)
      && (r.Failure? ==> r.error == MissingValue(key))
      && (r.Success? ==> r.value == Some((post[i].1, Lookup(post, key).value)))
    ensures r.Success? && r.value.Some? ==>
      exists at, num :: SecondPieceAt(post[i].0, at, num)
        && r.value.value.0 == post[i].1
        && Lookup(post, ValuePrefix + num) == Some(r.value.value.1)
  {
    var (key, name) := post[i];
    if !StartsWith(key, NamePrefix) then Success(None)
    else
      match SecondPiece(key)
      case None => Failure(NoUnderscore(key))
      case Some(num) =>
        match Lookup(post, ValuePrefix + num)
        case None => Failure(MissingValue(ValuePrefix + num))
        case Some(quantity) => Success(Some((name, quantity)))
  }

  /** The dict after one more field, given what the field does. */
  function Next(d: Dict, entry: Result<Option<(string, string)>, ParseError>): Result<Dict, ParseError>
  {
    match entry
    case Failure(e) => Failure(e)
    case Success(None) => Success(d)
    case Success(Some((name, quantity))) => Success(Put(d, name, quantity))
  }

  /** `get_ingredients` after the loop has seen the first `n` fields. */
  function ParsePrefix(post: Post, n: nat): (r: Result<Dict, ParseError>)
    requires n <= |post|
    ensures r.Success? ==> DistinctKeys(r.value)
  {
    if n == 0 then Success([])
    else
      match ParsePrefix(post, n - 1)
      case Failure(e) => Failure(e)
      case Success(d) => Next(d, FieldEntry(post, n - 1))
  }

  /** `get_ingredients(request)`: the whole post parsed. */
  function ParseIngredients(post: Post): Result<Dict, ParseError>
  {
    ParsePrefix(post, |post|)
  }

  /**
   * The loop of `get_ingredients`, filling the dict field by field: a field
   * that is not a name field is skipped; otherwise the number after the first
   * '_' selects the paired quantity.
   */
  method GetIngredients(post: Post) returns (r: Result<Dict, ParseError>)
    requires DistinctKeys(post)
    ensures r == ParseIngredients(post)
  {
    var ingredients: Dict := [];
    var i := 0;
    while i < |post|
      invariant 0 <= i <= |post|
      invariant ParsePrefix(post, i) == Success(ingredients)
    {
      var key, name := post[i].0, post[i].1;
      if !StartsWith(key, NamePrefix) {
        ParseSkips(post, i, ingredients);
      } else {
        var num := SecondPiece(key);
        if num.None? {
          ParseRaises(post, i, ingredients);
          return Failure(NoUnderscore(key));
        }
        var quantity := Lookup(post, ValuePrefix + num.value);
        if quantity.None? {
          ParseRaises(post, i, ingredients);
          return Failure(MissingValue(ValuePrefix + num.value));
        }
        ParseAssigns(post, i, ingredients);
        ingredients := Put(ingredients, name, quantity.value);
      }
      i := i + 1;
    }
    return Success(ingredients);
  }

  /** A field that is not a name field leaves the dict as it is. */
  lemma ParseSkips(post: Post, i: nat, d: Dict)
    requires i < |post| && ParsePrefix(post, i) == Success(d)
    requires !IsNameField(post[i])
    ensures ParsePrefix(post, i + 1) == Success(d)
  {
  }

  /** A name field with its partner posted assigns the partner's quantity to the title. */
  lemma ParseAssigns(post: Post, i: nat, d: Dict)
    requires i < |post| && ParsePrefix(post, i) == Success(d)
    requires IsNameField(post[i]) && SecondPiece(post[i].0).Some?
    requires Lookup(post, ValuePrefix + SecondPiece(post[i].0).value).Some?
    ensures ParsePrefix(post, i + 1)
      == Success(Put(d, post[i].1, Lookup(post, ValuePrefix + SecondPiece(post[i].0).value).value))
  {
  }

  /** A field that raises ends the whole parse with its exception. */
  lemma ParseRaises(post: Post, i: nat, d: Dict)
    requires i < |post| && ParsePrefix(post, i) == Success(d)
    requires Raises(post, i)
    ensures ParsePrefix(post, |post|) == Failure(FieldEntry(post, i).error)
    ensures '_' !in post[i].0 ==> ParsePrefix(post, |post|) == Failure(NoUnderscore(post[i].0))
    ensures '_' in post[i].0 ==>
      ParsePrefix(post, |post|) == Failure(MissingValue(ValuePrefix + SecondPiece(post[i].0).value))
  {
    FailureSticks(post, i + 1, |post|);
  }

  /** Once a field raises, the rest of the post cannot undo it. */
  lemma {:induction false} FailureSticks(post: Post, n: nat, m: nat)
    requires n <= m <= |post|
    requires ParsePrefix(post, n).Failure?
    ensures ParsePrefix(post, m) == ParsePrefix(post, n)
  {
    if m > n {
      FailureSticks(post, n, m - 1);
    }
  }

  /** The titles posted in name fields among the first `n` fields. */
  function PostedNames(post: Post, n: nat): set<string>
    requires n <= |post|
  {
    set i | 0 <= i < n && IsNameField(post[i]) :: post[i].1
  }

  /**
   * The parsed dict has exactly one key per title posted in a
   * `nameIngredient...` field: the field's value is the key, and every other
   * field contributes no key.
   */
  lemma {:induction false} ParseKeys(post: Post, n: nat)
    requires n <= |post|
    requires ParsePrefix(post, n).Success?
    ensures Keys(ParsePrefix(post, n).value) == PostedNames(post, n)
  {
    if n > 0 {
      ParseKeys(post, n - 1);
      assert PostedNames(post, n) ==
        PostedNames(post, n - 1) + (if IsNameField(post[n - 1]) then {post[n - 1].1} else {});
    }
  }

  /**
   * The quantity stored for a name is the one paired with the last name field
   * that posted it: a later field with the same name overwrites an earlier one.
   */
  lemma {:induction false} ParseLastWins(post: Post, n: nat, i: nat)
    requires i < n <= |post|
    requires ParsePrefix(post, n).Success?
    requires IsNameField(post[i])
    requires forall j :: i < j < n && IsNameField(post[j]) ==> post[j].1 != post[i].1
    ensures FieldEntry(post, i).Success? && FieldEntry(post, i).value.Some?
    ensures Lookup(ParsePrefix(post, n).value, post[i].1) == Some(FieldEntry(post, i).value.value.1)
  {
    if i < n - 1 {
      ParseLastWins(post, n - 1, i);
    }
  }

  /**
   * Field `i` raises: it is a name field whose key has no '_' (IndexError), or
   * whose paired `valueIngredient_<number>` field is missing (KeyError).
   */
  predicate Raises(post: Post, i: nat)
    requires i < |post|
  {
    IsNameField(post[i])
    && ('_' !in post[i].0 || Lookup(post, ValuePrefix + SecondPiece(post[i].0).value).None?)
  }

  /** The loop body raises on field `i` exactly in those cases. */
  lemma RaisesIsFailure(post: Post, i: nat)
    requires i < |post|
    ensures FieldEntry(post, i).Failure? <==> Raises(post, i)
  {
  }

  /** Parsing fails exactly when some name field raises. */
  lemma {:induction false} ParseFailure(post: Post, n: nat)
    requires n <= |post|
    ensures ParsePrefix(post, n).Failure? <==> exists i :: 0 <= i < n && Raises(post, i)
  {
    if n > 0 {
      ParseFailure(post, n - 1);
      RaisesIsFailure(post, n - 1);
      var prev := ParsePrefix(post, n - 1);
      if prev.Failure? {
        var i :| 0 <= i < n - 1 && Raises(post, i);
        assert ParsePrefix(post, n) == prev;
      } else if Raises(post, n - 1) {
        assert ParsePrefix(post, n).Failure?;
      } else {
        assert ParsePrefix(post, n).Success?;
        forall i | 0 <= i < n ensures !Raises(post, i) {
          if i < n - 1 {
            assert !(0 <= i < n - 1 && Raises(post, i));
          }
        }
      }
    }
  }

  /** A failed parse reports the exception of the first field that raises. */
  lemma {:induction false} ParseFailureFirst(post: Post, n: nat)
    requires n <= |post|
    requires ParsePrefix(post, n).Failure?
    ensures exists i :: 0 <= i < n && FieldEntry(post, i) == Failure(ParsePrefix(post, n).error)
                        && forall j :: 0 <= j < i ==> FieldEntry(post, j).Success?
  {
    var prev := ParsePrefix(post, n - 1);
    if prev.Failure? {
      ParseFailureFirst(post, n - 1);
      var i :| 0 <= i < n - 1 && FieldEntry(post, i) == Failure(prev.error)
               && forall j :: 0 <= j < i ==> FieldEntry(post, j).Success?;
      assert ParsePrefix(post, n) == prev;
      assert 0 <= i < n && FieldEntry(post, i) == Failure(ParsePrefix(post, n).error);
    } else {
      ParseFailure(post, n - 1);
      assert FieldEntry(post, n - 1) == Failure(ParsePrefix(post, n).error);
      forall j | 0 <= j < n - 1 ensures FieldEntry(post, j).Success? {
        RaisesIsFailure(post, j);
      }
    }
  }

  /** `quantity.replace(',', '.')`. */
  function Normalise(q: string): (r: string)
    ensures |r| == |q| && ',' !in r
    ensures forall i :: 0 <= i < |q| ==> r[i] == if q[i] == ',' then '.' else q[i]
  {
    if q == [] then []
    else [if q[0] == ',' then '.' else q[0]] + Normalise(q[1..])
  }

  /** Normalising twice is normalising once. */
  lemma NormaliseIdempotent(q: string)
    ensures Normalise(Normalise(q)) == Normalise(q)
  {
  }

  /**
   * Two quantities that differ only in using ',' or '.' as the decimal
   * separator normalise to the same text, so they convert to the same Decimal.
   */
  lemma SeparatorsAgree(a: string, b: string)
    requires |a| == |b|
    requires forall i :: 0 <= i < |a| ==> a[i] == b[i] || (a[i] in ",." && b[i] in ",.")
    ensures Normalise(a) == Normalise(b)
  {
  }
}
