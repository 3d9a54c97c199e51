/** `groupTokensByType`: the flat `global` token namespace of a token set,
    regrouped as `type -> name -> value`. Values are copied as they are; the
    function resolves no `{name}` references. */
module GroupTokens {
  import opened Wrappers

  /** A token value: a plain string or a record of named string fields
      (a typography token's `fontSize`, `lineHeight`, ...). */
  datatype Value = Scalar(text: string) | Composite(fields: map<string, string>)

  datatype DesignToken = DesignToken(value: Value, tokenType: string, description: Option<string>)

  /** The token document: `global` plus the `$themes` and `$metadata` entries. */
  datatype TokenSet = TokenSet(
    global: map<string, DesignToken>,
    themes: seq<string>,
    tokenSetOrder: seq<string>)

  type Grouped = map<string, map<string, Value>>

  /** Every token sits in the bucket of its type, under its own name, with its own value. */
  ghost predicate AllPlaced(global: map<string, DesignToken>, r: Grouped) {
    forall k :: k in global ==>
      && global[k].tokenType in r
      && k in r[global[k].tokenType]
      && r[global[k].tokenType][k] == global[k].value
  }

  /** A bucket holds only names of tokens of its own type. */
  ghost predicate OnlyOwnType(global: map<string, DesignToken>, r: Grouped) {
    forall t, k :: t in r && k in r[t] ==> k in global && global[k].tokenType == t
  }

  /** There is a bucket only for a type that some token has. */
  ghost predicate NoSpareBucket(global: map<string, DesignToken>, r: Grouped) {
    forall t :: t in r ==> exists k :: k in global && global[k].tokenType == t
  }

  /** `r` is a grouping of `global` by type. */
  ghost predicate IsGrouping(global: map<string, DesignToken>, r: Grouped) {
    AllPlaced(global, r) && OnlyOwnType(global, r) && NoSpareBucket(global, r)
  }

  /** One step of the loop: create the bucket if missing, store the value. */
  function Store(r: Grouped, key: string, token: DesignToken): Grouped {
    var bucket := if token.tokenType in r then r[token.tokenType] else map[];
    r[token.tokenType := bucket[key := token.value]]
  }

  lemma StorePreservesGrouping(done: map<string, DesignToken>, r: Grouped, key: string, token: DesignToken)
    requires IsGrouping(done, r) && key !in done
    ensures IsGrouping(done[key := token], Store(r, key, token))
  {
    var d2 := done[key := token];
    var r2 := Store(r, key, token);
    forall k | k in d2
      ensures d2[k].tokenType in r2 && k in r2[d2[k].tokenType] && r2[d2[k].tokenType][k] == d2[k].value
    {
      if k != key {
        assert k in done;
      }
    }
    forall t, k | t in r2 && k in r2[t]
      ensures k in d2 && d2[k].tokenType == t
    {
      if t != token.tokenType || k != key {
        assert t in r && k in r[t];
      }
    }
    forall t | t in r2
      ensures exists k :: k in d2 && d2[k].tokenType == t
    {
      if t == token.tokenType {
        assert key in d2 && d2[key].tokenType == t;
      } else {
        var k :| k in done && done[k].tokenType == t;
        assert k in d2 && d2[k].tokenType == t;
      }
    }
  }

  /** `groupTokensByType`: visits every entry of `global` once, creating the
      bucket of a type on first use and storing the value under the name. The
      visiting order is left open, so the result holds for every order. */
  method GroupTokensByType(tokenSet: TokenSet) returns (result: Grouped)
    ensures IsGrouping(tokenSet.global, result)
    ensures forall t :: t in result ==> |result[t]| > 0
    ensures tokenSet.global == map[] ==> result == map[]
  {
    var global := tokenSet.global;
    result := map[];
    var remaining := global.Keys;
    assert global - remaining == map[];
    while remaining != {}
      invariant remaining <= global.Keys
      invariant IsGrouping(global - remaining, result)
      decreases remaining
    {
      var key :| key in remaining;
      var token := global[key];
      StorePreservesGrouping(global - remaining, result, key, token);
      assert (global - remaining)[key := token] == global - (remaining - {key});
      ghost var before := result;
      if token.tokenType !in result {
        result := result[token.tokenType := map[]];
      }
      result := result[token.tokenType := result[token.tokenType][key := token.value]];
      assert result == Store(before, key, token);
      remaining := remaining - {key};
    }
    assert global - {} == global;
    forall t | t in result ensures |result[t]| > 0 {
      var k :| k in global && global[k].tokenType == t;
      assert k in result[t];
    }
    if global == map[] {
      assert result.Keys == {};
    }
  }

  /** A grouping is unique: whatever order the entries are visited in, and
      whatever `$themes` and `$metadata` hold, the result is the same. */
  lemma GroupingDeterminedByGlobal(a: TokenSet, b: TokenSet, ra: Grouped, rb: Grouped)
    requires a.global == b.global
    requires IsGrouping(a.global, ra) && IsGrouping(b.global, rb)
    ensures ra == rb
  {
    var global := a.global;
    forall t | t in ra ensures t in rb {
      var k :| k in global && global[k].tokenType == t;
    }
    forall t | t in rb ensures t in ra {
      var k :| k in global && global[k].tokenType == t;
    }
    forall t | t in ra ensures ra[t] == rb[t] {
      forall k | k in ra[t] ensures k in rb[t] && ra[t][k] == rb[t][k] {
        assert k in global && global[k].tokenType == t;
      }
      forall k | k in rb[t] ensures k in ra[t] {
        assert k in global && global[k].tokenType == t;
      }
    }
  }

  /** Sum of the bucket sizes over the types in `ts`. */
  ghost function SumSizes(r: Grouped, ts: set<string>): nat
    requires ts <= r.Keys
  {
    if ts == {} then 0
    else
      var t :| t in ts;
      |r[t]| + SumSizes(r, ts - {t})
  }

  ghost function TokensOfTypes(global: map<string, DesignToken>, ts: set<string>): set<string> {
    set k | k in global && global[k].tokenType in ts
  }

  lemma {:induction false} SumSizesCountsTokens(global: map<string, DesignToken>, r: Grouped, ts: set<string>)
    requires IsGrouping(global, r)
    requires ts <= r.Keys
    ensures SumSizes(r, ts) == |TokensOfTypes(global, ts)|
    decreases ts
  {
    if ts != {} {
      var t :| t in ts && SumSizes(r, ts) == |r[t]| + SumSizes(r, ts - {t});
      SumSizesCountsTokens(global, r, ts - {t});
      var bucket := TokensOfTypes(global, {t});
      var rest := TokensOfTypes(global, ts - {t});
      BucketKeys(global, r, t);
      SplitTokensOfTypes(global, ts, t);
      assert |r[t]| == |bucket|;
      assert |bucket + rest| == |bucket| + |rest|;
    }
  }

  lemma AllTypesCoverAll(global: map<string, DesignToken>, r: Grouped)
    requires AllPlaced(global, r)
    ensures TokensOfTypes(global, r.Keys) == global.Keys
  {
    var all := TokensOfTypes(global, r.Keys);
    forall k | k in global ensures k in all {
      assert global[k].tokenType in r;
    }
  }

  lemma BucketKeys(global: map<string, DesignToken>, r: Grouped, t: string)
    requires IsGrouping(global, r) && t in r
    ensures r[t].Keys == TokensOfTypes(global, {t})
  {
  }

  lemma SplitTokensOfTypes(global: map<string, DesignToken>, ts: set<string>, t: string)
    requires t in ts
    ensures TokensOfTypes(global, ts) == TokensOfTypes(global, {t}) + TokensOfTypes(global, ts - {t})
    ensures TokensOfTypes(global, {t}) !! TokensOfTypes(global, ts - {t})
  {
  }

  /** The bucket sizes add up to the number of tokens: no token is lost or
      stored twice. */
  lemma BucketSizesSum(global: map<string, DesignToken>, r: Grouped)
    requires IsGrouping(global, r)
    ensures SumSizes(r, r.Keys) == |global|
  {
    SumSizesCountsTokens(global, r, r.Keys);
    AllTypesCoverAll(global, r);
    assert |global| == |global.Keys|;
  }
}
