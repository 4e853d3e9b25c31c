/** `buildWhereClause`: the translation of a filter object into a
    parameterised SQL predicate. Only three filter keys are recognised, in
    a fixed order; each present one contributes one condition with the
    next numbered placeholder and one bound value. */
module Query {
  import opened Text
  import opened Jobs

  /** The recognised filter keys, in the order the source tests them. */
  datatype Key = CountryCode | SubscriptionTier | MinLtv

  const Whitelist: seq<Key> := [CountryCode, SubscriptionTier, MinLtv]

  datatype Op = Equals | AtLeast

  /** A bound parameter: a query-string text, or `parseFloat` of one (the
      floating-point value is not interpreted here). */
  datatype Value = Str(text: string) | ParsedFloat(literal: string)

  datatype Condition = Condition(column: string, op: Op, param: nat)

  datatype WhereClause = WhereClause(clause: string, values: seq<Value>)

  function KeyName(k: Key): string
  {
    match k
    case CountryCode => "country_code"
    case SubscriptionTier => "subscription_tier"
    case MinLtv => "min_ltv"
  }

  function Column(k: Key): string
  {
    match k
    case CountryCode => "country_code"
    case SubscriptionTier => "subscription_tier"
    case MinLtv => "lifetime_value"
  }

  function OpOf(k: Key): Op
  {
    if k == MinLtv then AtLeast else Equals
  }

  /** Position of a key in the whitelist. */
  function Rank(k: Key): nat
  {
    match k
    case CountryCode => 0
    case SubscriptionTier => 1
    case MinLtv => 2
  }

  /** Whether the filter object supplies the key: the two text filters
      must be truthy (present and non-empty); `min_ltv` only has to be
      defined. */
  predicate Supplied(k: Key, f: Filters)
  {
    KeyName(k) in f && (k == MinLtv || f[KeyName(k)] != "")
  }

  function ValueOf(k: Key, f: Filters): Value
    requires Supplied(k, f)
  {
    if k == MinLtv then ParsedFloat(f[KeyName(k)]) else Str(f[KeyName(k)])
  }

  /** The supplied keys among `keys`, in their order there. */
  function SuppliedKeys(keys: seq<Key>, f: Filters): (ks: seq<Key>)
    ensures |ks| <= |keys|
    ensures forall i :: 0 <= i < |ks| ==> Supplied(ks[i], f) && ks[i] in keys
    decreases |keys|
  {
    if keys == [] then []
    else if Supplied(keys[0], f) then [keys[0]] + SuppliedKeys(keys[1..], f)
    else SuppliedKeys(keys[1..], f)
  }

  /** The conditions for a list of keys, numbered $1, $2, ... in order. */
  function Numbered(ks: seq<Key>): (cs: seq<Condition>)
    ensures |cs| == |ks|
    ensures forall i :: 0 <= i < |cs| ==> cs[i].param == i + 1
  {
    seq(|ks|, i requires 0 <= i < |ks| => Condition(Column(ks[i]), OpOf(ks[i]), i + 1))
  }

  function Bound(ks: seq<Key>, f: Filters): (vs: seq<Value>)
    requires forall i :: 0 <= i < |ks| ==> Supplied(ks[i], f)
    ensures |vs| == |ks|
  {
    seq(|ks|, i requires 0 <= i < |ks| => ValueOf(ks[i], f))
  }

  /** The conditions of the clause: one per supplied key, in whitelist
      order, numbered $1, $2, ... without gaps. */
  function ConditionsOf(f: Filters): (cs: seq<Condition>)
    ensures |cs| <= |Whitelist|
    ensures forall i :: 0 <= i < |cs| ==> cs[i].param == i + 1
  {
    Numbered(SuppliedKeys(Whitelist, f))
  }

  /** The bound values: the i-th one is what placeholder $(i+1) stands for. */
  function ValuesOf(f: Filters): (vs: seq<Value>)
    ensures |vs| == |ConditionsOf(f)|
  {
    Bound(SuppliedKeys(Whitelist, f), f)
  }

  function RenderCondition(c: Condition): string
  {
    c.column + (if c.op == Equals then " = $" else " >= $") + NatToString(c.param)
  }

  function RenderAll(cs: seq<Condition>): (texts: seq<string>)
    ensures |texts| == |cs|
  {
    seq(|cs|, i requires 0 <= i < |cs| => RenderCondition(cs[i]))
  }

  /** `'WHERE ' + conditions.join(' AND ')`, or nothing without conditions. */
  function RenderClause(texts: seq<string>): (clause: string)
    ensures clause == "" <==> texts == []
  {
    if |texts| > 0 then "WHERE " + Join(texts, " AND ") else ""
  }

  /** What `buildWhereClause` returns for a filter object. */
  function WhereClauseOf(f: Filters): (w: WhereClause)
    ensures |w.values| == |ConditionsOf(f)|
    ensures w.clause == "" <==> ConditionsOf(f) == []
  {
    WhereClause(RenderClause(RenderAll(ConditionsOf(f))), ValuesOf(f))
  }

  /** `buildWhereClause`, pushing one condition and one value per supplied
      filter and advancing the placeholder counter after each. */
  method BuildWhereClause(filters: Filters) returns (w: WhereClause)
    ensures w == WhereClauseOf(filters)
  {
    var conditions: seq<string> := [];
    var values: seq<Value> := [];
    var paramIndex: nat := 1;
    ghost var keys: seq<Key> := [];
    ghost var rest: seq<Key> := Whitelist;
    assert Built(conditions, values, paramIndex, keys, rest, filters);

    Tested(conditions, values, paramIndex, keys, rest, filters);
    if "country_code" in filters && filters["country_code"] != "" {
      conditions := conditions + [RenderCondition(Condition("country_code", Equals, paramIndex))];
      paramIndex := paramIndex + 1;
      values := values + [Str(filters["country_code"])];
      keys := keys + [CountryCode];
    }
    rest := rest[1..];
    assert rest == [SubscriptionTier, MinLtv];

    Tested(conditions, values, paramIndex, keys, rest, filters);
    if "subscription_tier" in filters && filters["subscription_tier"] != "" {
      conditions := conditions + [RenderCondition(Condition("subscription_tier", Equals, paramIndex))];
      paramIndex := paramIndex + 1;
      values := values + [Str(filters["subscription_tier"])];
      keys := keys + [SubscriptionTier];
    }
    rest := rest[1..];
    assert rest == [MinLtv];

    Tested(conditions, values, paramIndex, keys, rest, filters);
    if "min_ltv" in filters {
      conditions := conditions + [RenderCondition(Condition("lifetime_value", AtLeast, paramIndex))];
      paramIndex := paramIndex + 1;
      values := values + [ParsedFloat(filters["min_ltv"])];
      keys := keys + [MinLtv];
    }
    rest := rest[1..];
    assert rest == [];

    w := WhereClause(if |conditions| > 0 then "WHERE " + Join(conditions, " AND ") else "", values);
    Finished(conditions, values, paramIndex, keys, filters);
  }

  /** The state of `buildWhereClause` with the keys of `rest` still to be
      tested: one condition and one value per key supplied so far, and the
      counter at the next placeholder. */
  ghost predicate Built(conditions: seq<string>, values: seq<Value>, paramIndex: nat,
                        keys: seq<Key>, rest: seq<Key>, f: Filters)
  {
    && (forall i :: 0 <= i < |keys| ==> Supplied(keys[i], f))
    && conditions == RenderAll(Numbered(keys))
    && values == Bound(keys, f)
    && paramIndex == |keys| + 1
    && keys + SuppliedKeys(rest, f) == SuppliedKeys(Whitelist, f)
  }

  /** Testing the next key moves it to the supplied ones, with its
      condition and value pushed, when the filter object supplies it. */
  lemma Tested(conditions: seq<string>, values: seq<Value>, paramIndex: nat,
               keys: seq<Key>, rest: seq<Key>, f: Filters)
    requires Built(conditions, values, paramIndex, keys, rest, f) && rest != []
    ensures Supplied(rest[0], f) ==>
      Built(conditions + [RenderCondition(Condition(Column(rest[0]), OpOf(rest[0]), paramIndex))],
            values + [ValueOf(rest[0], f)], paramIndex + 1, keys + [rest[0]], rest[1..], f)
    ensures !Supplied(rest[0], f) ==> Built(conditions, values, paramIndex, keys, rest[1..], f)
  {
    if Supplied(rest[0], f) {
      TestedSupplied(conditions, values, paramIndex, keys, rest, f);
    } else {
      assert SuppliedKeys(rest, f) == SuppliedKeys(rest[1..], f);
    }
  }

  lemma TestedSupplied(conditions: seq<string>, values: seq<Value>, paramIndex: nat,
                       keys: seq<Key>, rest: seq<Key>, f: Filters)
    requires Built(conditions, values, paramIndex, keys, rest, f) && rest != [] && Supplied(rest[0], f)
    ensures Built(conditions + [RenderCondition(Condition(Column(rest[0]), OpOf(rest[0]), paramIndex))],
                  values + [ValueOf(rest[0], f)], paramIndex + 1, keys + [rest[0]], rest[1..], f)
  {
    var k := rest[0];
    var later := SuppliedKeys(rest[1..], f);
    Pushed(keys, k, f);
    var keys' := keys + [k];
    assert SuppliedKeys(rest, f) == [k] + later;
    AppendAssociative(keys, [k], later);
    assert forall i :: 0 <= i < |keys'| ==> Supplied(keys'[i], f);
    assert conditions + [RenderCondition(Condition(Column(k), OpOf(k), paramIndex))] == RenderAll(Numbered(keys'));
    assert values + [ValueOf(k, f)] == Bound(keys', f);
  }

  /** Once every key is tested, the state is the clause for the filters. */
  lemma Finished(conditions: seq<string>, values: seq<Value>, paramIndex: nat, keys: seq<Key>, f: Filters)
    requires Built(conditions, values, paramIndex, keys, [], f)
    ensures WhereClause(if |conditions| > 0 then "WHERE " + Join(conditions, " AND ") else "", values)
      == WhereClauseOf(f)
  {
    assert keys + [] == keys;
  }

  /** Pushing one more supplied key appends its condition, numbered next,
      and its value. */
  lemma Pushed(ks: seq<Key>, k: Key, f: Filters)
    requires forall i :: 0 <= i < |ks| ==> Supplied(ks[i], f)
    requires Supplied(k, f)
    ensures RenderAll(Numbered(ks + [k])) == RenderAll(Numbered(ks)) + [RenderCondition(Condition(Column(k), OpOf(k), |ks| + 1))]
    ensures Bound(ks + [k], f) == Bound(ks, f) + [ValueOf(k, f)]
  {
    assert Numbered(ks + [k]) == Numbered(ks) + [Condition(Column(k), OpOf(k), |ks| + 1)];
  }

  /** Keys in strictly increasing whitelist position. */
  predicate Ascending(ks: seq<Key>)
  {
    forall i, j :: 0 <= i < j < |ks| ==> Rank(ks[i]) < Rank(ks[j])
  }

  /** Filtering keeps the relative order of the keys. */
  lemma {:induction false} SuppliedKeysOrdered(keys: seq<Key>, f: Filters)
    requires Ascending(keys)
    ensures Ascending(SuppliedKeys(keys, f))
    decreases |keys|
  {
    if keys != [] {
      SuppliedKeysOrdered(keys[1..], f);
      var rest := SuppliedKeys(keys[1..], f);
      if Supplied(keys[0], f) {
        forall i | 0 <= i < |rest| ensures Rank(keys[0]) < Rank(rest[i]) {
          var k :| 0 <= k < |keys[1..]| && keys[1..][k] == rest[i];
          assert keys[k + 1] == rest[i];
        }
        var ks := [keys[0]] + rest;
        assert SuppliedKeys(keys, f) == ks;
        forall i, j | 0 <= i < j < |ks| ensures Rank(ks[i]) < Rank(ks[j]) {
          assert ks[j] == rest[j - 1];
          if i > 0 {
            assert ks[i] == rest[i - 1];
            assert Rank(rest[i - 1]) < Rank(rest[j - 1]);
          } else {
            assert Rank(keys[0]) < Rank(rest[j - 1]);
          }
        }
      }
    }
  }

  /** The conditions appear in the fixed order country_code,
      subscription_tier, lifetime_value, each at most once. */
  lemma ConditionsInWhitelistOrder(f: Filters)
    ensures var ks := SuppliedKeys(Whitelist, f);
      && |ConditionsOf(f)| == |ks|
      && (forall i :: 0 <= i < |ks| ==> ConditionsOf(f)[i].column == Column(ks[i]))
      && Ascending(ks)
  {
    SuppliedKeysOrdered(Whitelist, f);
  }

  /** Which keys are supplied depends only on the three whitelisted
      entries of the filter object. */
  lemma {:induction false} SuppliedKeysDependOnWhitelist(keys: seq<Key>, f: Filters, g: Filters)
    requires forall i :: 0 <= i < |keys| ==> (Supplied(keys[i], f) <==> Supplied(keys[i], g))
    ensures SuppliedKeys(keys, f) == SuppliedKeys(keys, g)
    decreases |keys|
  {
    if keys != [] {
      SuppliedKeysDependOnWhitelist(keys[1..], f, g);
    }
  }

  predicate SameSupply(f: Filters, g: Filters)
  {
    forall k: Key :: Supplied(k, f) <==> Supplied(k, g)
  }

  /** The clause text depends only on which filters are supplied, never on
      their values: request values reach the query only as bound values. */
  lemma ClauseIgnoresFilterValues(f: Filters, g: Filters)
    requires SameSupply(f, g)
    ensures WhereClauseOf(f).clause == WhereClauseOf(g).clause
  {
    SuppliedKeysDependOnWhitelist(Whitelist, f, g);
  }

  /** Keys outside the whitelist never affect the result. */
  lemma OtherKeysIgnored(f: Filters, g: Filters)
    requires forall k: Key :: (KeyName(k) in f <==> KeyName(k) in g)
    requires forall k: Key :: KeyName(k) in f ==> f[KeyName(k)] == g[KeyName(k)]
    ensures WhereClauseOf(f) == WhereClauseOf(g)
  {
    SuppliedKeysDependOnWhitelist(Whitelist, f, g);
  }

  /** Placeholder $(i+1) is bound to the value of the i-th supplied key. */
  lemma PlaceholdersBindSuppliedValues(f: Filters)
    ensures var ks := SuppliedKeys(Whitelist, f);
      forall i :: 0 <= i < |ks| ==>
        ConditionsOf(f)[i].param == i + 1 && WhereClauseOf(f).values[i] == ValueOf(ks[i], f)
  {
  }
}
