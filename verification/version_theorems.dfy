module VersionTheorems {
  import opened VersionModel
  import opened Sequences

  // ---- One key ----

  /** Every underscore is last or stands before a character that is not a word character. */
  predicate SurvivesV2V1(key: string) {
    forall i :: 0 <= i < |key| && key[i] == '_' ==> i + 1 == |key| || !IsWord(key[i + 1])
  }

  /** No ASCII capital, and every underscore is last or stands before a lower-case ASCII letter or
      a character that is not a word character. */
  predicate SurvivesV1V2(key: string) {
    && (forall i :: 0 <= i < |key| ==> !IsUpper(key[i]))
    && (forall i :: 0 <= i < |key| && key[i] == '_' ==>
          i + 1 == |key| || IsLower(key[i + 1]) || !IsWord(key[i + 1]))
  }

  lemma V2Cons(c: char, rest: string)
    ensures KeyToV2([c] + rest) == (if IsUpper(c) then ['_', ToLower(c)] else [c]) + KeyToV2(rest)
  {
    assert ([c] + rest)[1..] == rest;
  }

  lemma V1Plain(c: char, rest: string)
    requires c != '_' || rest == "" || !IsWord(rest[0])
    ensures KeyToV1([c] + rest) == [c] + KeyToV1(rest)
  {
    assert ([c] + rest)[1..] == rest;
  }

  lemma V1Match(c: char, rest: string)
    requires IsWord(c)
    ensures KeyToV1(['_', c] + rest) == [ToUpper(c)] + KeyToV1(rest)
  {
    assert (['_', c] + rest)[2..] == rest;
  }

  function ThroughV2(key: string): string { KeyToV1(KeyToV2(key)) }

  function ThroughV1(key: string): string { KeyToV2(KeyToV1(key)) }

  /** A character that does not start a match. */
  predicate Plain(key: string)
    requires key != ""
  {
    key[0] != '_' || |key| == 1 || !IsWord(key[1])
  }

  lemma V2FirstChar(key: string)
    requires key != ""
    ensures KeyToV2(key) != "" && KeyToV2(key)[0] == if IsUpper(key[0]) then '_' else key[0]
  {
  }

  lemma ThroughV2Plain(key: string)
    requires key != "" && Plain(key)
    ensures ThroughV2(key) == [key[0]] + ThroughV2(key[1..])
  {
    var rest := KeyToV2(key[1..]);
    assert key == [key[0]] + key[1..];
    V2Cons(key[0], key[1..]);
    if IsUpper(key[0]) {
      assert ['_', ToLower(key[0])] + rest == KeyToV2(key);
      V1Match(ToLower(key[0]), rest);
    } else {
      if |key| != 1 { V2FirstChar(key[1..]); }
      V1Plain(key[0], rest);
    }
  }

  lemma V2OfCapital(key: string)
    requires 1 < |key| && key[0] == '_' && IsUpper(key[1])
    ensures KeyToV2(key) == ['_', '_'] + ([ToLower(key[1])] + KeyToV2(key[2..]))
  {
    var low, rest := ToLower(key[1]), KeyToV2(key[2..]);
    assert KeyToV2(key[1..]) == ['_', low] + rest by {
      assert key[1..] == [key[1]] + key[2..];
      V2Cons(key[1], key[2..]);
    }
    assert KeyToV2(key) == ['_'] + KeyToV2(key[1..]) by {
      assert key == [key[0]] + key[1..];
      V2Cons(key[0], key[1..]);
    }
    PrependTwo('_', low, rest);
    PrependTwo('_', '_', [low] + rest);
  }

  lemma V1OfDoubleUnderscore(c: char, rest: string)
    requires c != '_'
    ensures KeyToV1(['_', '_'] + ([c] + rest)) == ['_', c] + KeyToV1(rest)
  {
    V1Match('_', [c] + rest);
    V1Plain(c, rest);
    PrependTwo('_', c, KeyToV1(rest));
  }

  lemma ThroughV2Capital(key: string)
    requires 1 < |key| && key[0] == '_' && IsUpper(key[1])
    ensures ThroughV2(key) == ['_', ToLower(key[1])] + ThroughV2(key[2..])
  {
    V2OfCapital(key);
    V1OfDoubleUnderscore(ToLower(key[1]), KeyToV2(key[2..]));
  }

  lemma ThroughV2Match(key: string)
    requires 1 < |key| && key[0] == '_' && IsWord(key[1]) && !IsUpper(key[1])
    ensures ThroughV2(key) == [ToUpper(key[1])] + ThroughV2(key[2..])
  {
    var rest := KeyToV2(key[2..]);
    assert key == [key[0]] + key[1..] && key[1..] == [key[1]] + key[2..];
    V2Cons(key[0], key[1..]);
    V2Cons(key[1], key[2..]);
    assert KeyToV2(key) == ['_', key[1]] + rest;
    V1Match(key[1], rest);
  }

  lemma {:induction false} ThroughV2NoLonger(key: string)
    ensures |ThroughV2(key)| <= |key|
    decreases |key|
  {
    if key == "" {
    } else if Plain(key) {
      ThroughV2Plain(key);
      ThroughV2NoLonger(key[1..]);
    } else {
      if IsUpper(key[1]) { ThroughV2Capital(key); } else { ThroughV2Match(key); }
      ThroughV2NoLonger(key[2..]);
    }
  }

  lemma SurvivesTail(key: string)
    requires key != "" && Plain(key)
    ensures SurvivesV2V1(key) <==> SurvivesV2V1(key[1..])
  {
    assert forall i :: 0 < i < |key| ==> key[i] == key[1..][i - 1];
    if SurvivesV2V1(key) {
      assert forall i :: 0 <= i < |key[1..]| ==> key[1..][i] == key[i + 1];
    }
  }

  /** A key survives V2 and back exactly when SurvivesV2V1 says so. */
  lemma {:induction false} KeyV2V1Exactly(key: string)
    ensures KeyToV1(KeyToV2(key)) == key <==> SurvivesV2V1(key)
    decreases |key|
  {
    var back := ThroughV2(key);
    if key == "" {
    } else if Plain(key) {
      ThroughV2Plain(key);
      KeyV2V1Exactly(key[1..]);
      SurvivesTail(key);
      assert key == [key[0]] + key[1..] && back[1..] == ThroughV2(key[1..]);
    } else {
      assert key[0] == '_' && !SurvivesV2V1(key);
      if IsUpper(key[1]) {
        ThroughV2Capital(key);
        assert back[1] == ToLower(key[1]);
      } else {
        ThroughV2Match(key);
        ThroughV2NoLonger(key[2..]);
      }
    }
  }

  lemma {:induction false} V2HasNoCapital(key: string)
    ensures forall i :: 0 <= i < |KeyToV2(key)| ==> !IsUpper(KeyToV2(key)[i])
    decreases |key|
  {
    if key != "" {
      V2HasNoCapital(key[1..]);
    }
  }

  lemma ThroughV1Plain(key: string)
    requires key != "" && Plain(key) && !IsUpper(key[0])
    ensures ThroughV1(key) == [key[0]] + ThroughV1(key[1..])
  {
    assert key == [key[0]] + key[1..];
    V1Plain(key[0], key[1..]);
    V2Cons(key[0], KeyToV1(key[1..]));
  }

  lemma ThroughV1Match(key: string)
    requires key != "" && !Plain(key)
    ensures ThroughV1(key) ==
      (if IsUpper(key[1]) || IsLower(key[1]) then ['_', ToLower(key[1])] else [key[1]]) + ThroughV1(key[2..])
  {
    assert key == ['_', key[1]] + key[2..];
    V1Match(key[1], key[2..]);
    V2Cons(ToUpper(key[1]), KeyToV1(key[2..]));
  }

  lemma {:induction false} ThroughV1NoLonger(key: string)
    requires forall i :: 0 <= i < |key| ==> !IsUpper(key[i])
    ensures |ThroughV1(key)| <= |key|
    decreases |key|
  {
    if key == "" {
    } else if Plain(key) {
      ThroughV1Plain(key);
      ThroughV1NoLonger(key[1..]);
    } else {
      ThroughV1Match(key);
      ThroughV1NoLonger(key[2..]);
    }
  }

  lemma SurvivesV1V2Tail(key: string, n: nat)
    requires 1 <= n <= 2 && n <= |key| && forall i :: 0 <= i < |key| ==> !IsUpper(key[i])
    requires n == 1 ==> Plain(key)
    requires n == 2 ==> key[0] == '_' && IsLower(key[1])
    ensures SurvivesV1V2(key) <==> SurvivesV1V2(key[n..])
  {
    assert forall i :: n <= i < |key| ==> key[i] == key[n..][i - n];
    if SurvivesV1V2(key) {
      assert forall i :: 0 <= i < |key[n..]| ==> key[n..][i] == key[i + n];
    }
  }

  lemma {:induction false} NoCapitalV1V2Exactly(key: string)
    requires forall i :: 0 <= i < |key| ==> !IsUpper(key[i])
    ensures ThroughV1(key) == key <==> SurvivesV1V2(key)
    decreases |key|
  {
    var back := ThroughV1(key);
    if key == "" {
    } else if Plain(key) {
      ThroughV1Plain(key);
      NoCapitalV1V2Exactly(key[1..]);
      SurvivesV1V2Tail(key, 1);
      assert key == [key[0]] + key[1..] && back[1..] == ThroughV1(key[1..]);
    } else {
      ThroughV1Match(key);
      if IsLower(key[1]) {
        NoCapitalV1V2Exactly(key[2..]);
        SurvivesV1V2Tail(key, 2);
        assert key == ['_', key[1]] + key[2..] && back[2..] == ThroughV1(key[2..]);
      } else {
        assert !SurvivesV1V2(key);
        ThroughV1NoLonger(key[2..]);
      }
    }
  }

  /** A key survives V1 and back exactly when SurvivesV1V2 says so. */
  lemma {:induction false} KeyV1V2Exactly(key: string)
    ensures KeyToV2(KeyToV1(key)) == key <==> SurvivesV1V2(key)
    decreases |key|
  {
    if i :| 0 <= i < |key| && IsUpper(key[i]) {
      V2HasNoCapital(KeyToV1(key));
      assert ThroughV1(key) == key ==> IsUpper(ThroughV1(key)[i]);
    } else {
      NoCapitalV1V2Exactly(key);
    }
  }

  // ---- Whole values ----

  predicate DistinctKeys(fields: seq<Field>) {
    forall i, j :: 0 <= i < j < |fields| ==> fields[i].key != fields[j].key
  }

  /** Every object, at every depth, has distinct keys. */
  predicate WellFormed(x: Json) {
    match x
    case Arr(items) => forall i :: 0 <= i < |items| ==> WellFormed(items[i])
    case Obj(fields) => DistinctKeys(fields) && forall i :: 0 <= i < |fields| ==> WellFormed(fields[i].value)
    case _ => true
  }

  /** p holds of every key at every depth. */
  predicate AllKeys(x: Json, p: string -> bool) {
    match x
    case Arr(items) => forall i :: 0 <= i < |items| ==> AllKeys(items[i], p)
    case Obj(fields) => forall i :: 0 <= i < |fields| ==> p(fields[i].key) && AllKeys(fields[i].value, p)
    case _ => true
  }

  predicate HasKey(fields: seq<Field>, key: string) {
    exists i :: 0 <= i < |fields| && fields[i].key == key
  }

  lemma {:induction false} AssignShape(fields: seq<Field>, key: string, value: Json)
    ensures HasKey(fields, key) ==> |Assign(fields, key, value)| == |fields|
    ensures !HasKey(fields, key) ==> Assign(fields, key, value) == fields + [Field(key, value)]
    decreases |fields|
  {
    if fields != [] && fields[0].key != key {
      AssignShape(fields[1..], key, value);
      assert fields == [fields[0]] + fields[1..];
      assert HasKey(fields, key) ==> HasKey(fields[1..], key) by {
        assert forall i :: 0 < i < |fields| ==> fields[i] == fields[1..][i - 1];
      }
    }
  }

  function Mapped(fields: seq<Field>, rename: string -> string): seq<Field> {
    seq(|fields|, i requires 0 <= i < |fields| => Field(rename(fields[i].key), Rewrite(fields[i].value, rename)))
  }

  lemma MappedTail(fields: seq<Field>, rename: string -> string)
    requires fields != []
    ensures Mapped(fields, rename)
         == [Field(rename(fields[0].key), Rewrite(fields[0].value, rename))] + Mapped(fields[1..], rename)
  {
  }

  /** The loop adds at most one field for each field read, and one for each exactly when it
      produces them in order. */
  lemma {:induction false} RewriteFieldsShape(fields: seq<Field>, done: seq<Field>, rename: string -> string)
    ensures var r := RewriteFields(fields, done, rename);
      && |r| <= |done| + |fields|
      && (|r| == |done| + |fields| ==> r == done + Mapped(fields, rename))
    decreases |fields|
  {
    if fields != [] {
      var key, value := rename(fields[0].key), Rewrite(fields[0].value, rename);
      AssignShape(done, key, value);
      RewriteFieldsShape(fields[1..], Assign(done, key, value), rename);
      MappedTail(fields, rename);
    }
  }

  /** Renamed keys that are distinct from each other and from those already there are all kept. */
  lemma {:induction false} NoCollision(fields: seq<Field>, done: seq<Field>, rename: string -> string)
    requires forall i, j :: 0 <= i < j < |fields| ==> rename(fields[i].key) != rename(fields[j].key)
    requires forall i :: 0 <= i < |fields| ==> !HasKey(done, rename(fields[i].key))
    ensures RewriteFields(fields, done, rename) == done + Mapped(fields, rename)
    decreases |fields|
  {
    if fields != [] {
      var key, value := rename(fields[0].key), Rewrite(fields[0].value, rename);
      AssignShape(done, key, value);
      forall i | 0 <= i < |fields[1..]|
        ensures !HasKey(done + [Field(key, value)], rename(fields[1..][i].key))
      {
        assert fields[1..][i] == fields[i + 1];
        assert !HasKey(done, rename(fields[i + 1].key));
      }
      NoCollision(fields[1..], done + [Field(key, value)], rename);
      MappedTail(fields, rename);
    }
  }

  lemma {:induction false} AssignKeepsDistinct(fields: seq<Field>, key: string, value: Json)
    requires DistinctKeys(fields)
    ensures DistinctKeys(Assign(fields, key, value))
    ensures forall k :: HasKey(Assign(fields, key, value), k) ==> HasKey(fields, k) || k == key
    decreases |fields|
  {
    if fields != [] {
      if fields[0].key == key {
        assert forall i :: 0 <= i < |fields| ==> Assign(fields, key, value)[i].key == fields[i].key;
      } else {
        var rest := Assign(fields[1..], key, value);
        AssignKeepsDistinct(fields[1..], key, value);
        assert DistinctKeys(fields[1..]);
        forall i | 0 <= i < |rest|
          ensures rest[i].key != fields[0].key
        {
          assert HasKey(rest, rest[i].key);
        }
        assert forall i :: 0 < i <= |rest| ==> Assign(fields, key, value)[i] == rest[i - 1];
        assert forall k :: HasKey(fields[1..], k) ==> HasKey(fields, k);
        forall k | HasKey(Assign(fields, key, value), k)
          ensures HasKey(fields, k) || k == key
        {
          var i :| 0 <= i < |rest| + 1 && Assign(fields, key, value)[i].key == k;
          if i == 0 { assert fields[0].key == k; } else { assert rest[i - 1].key == k; assert HasKey(rest, k); }
        }
      }
    }
  }

  lemma {:induction false} KeptAreDistinct(fields: seq<Field>, done: seq<Field>, rename: string -> string)
    requires DistinctKeys(done)
    ensures DistinctKeys(RewriteFields(fields, done, rename))
    decreases |fields|
  {
    if fields != [] {
      var key, value := rename(fields[0].key), Rewrite(fields[0].value, rename);
      AssignKeepsDistinct(done, key, value);
      KeptAreDistinct(fields[1..], Assign(done, key, value), rename);
    }
  }

  /** Main result: rewriting an object keeps every field exactly when the renamed keys are distinct. */
  lemma FieldsKeptExactly(fields: seq<Field>, rename: string -> string)
    ensures |Rewrite(Obj(fields), rename).fields| == |fields| <==>
            (forall i, j :: 0 <= i < j < |fields| ==> rename(fields[i].key) != rename(fields[j].key))
  {
    var r := RewriteFields(fields, [], rename);
    RewriteFieldsShape(fields, [], rename);
    KeptAreDistinct(fields, [], rename);
    if |r| == |fields| {
      assert r == Mapped(fields, rename);
      assert forall i :: 0 <= i < |fields| ==> r[i].key == rename(fields[i].key);
    }
    if forall i, j :: 0 <= i < j < |fields| ==> rename(fields[i].key) != rename(fields[j].key) {
      NoCollision(fields, [], rename);
    }
  }

  lemma {:induction false} RewriteAllAt(items: seq<Json>, rename: string -> string, i: nat)
    requires i < |items|
    ensures RewriteAll(items, rename)[i] == Rewrite(items[i], rename)
    decreases |items|
  {
    if i != 0 {
      RewriteAllAt(items[1..], rename, i - 1);
    }
  }

  lemma RestoredWhenKeysSurvive(fields: seq<Field>, there: string -> string, back: string -> string)
    requires DistinctKeys(fields)
    requires forall i :: 0 <= i < |fields| ==>
      back(there(fields[i].key)) == fields[i].key
      && Rewrite(Rewrite(fields[i].value, there), back) == fields[i].value
    ensures Rewrite(Rewrite(Obj(fields), there), back) == Obj(fields)
  {
    var mid := Mapped(fields, there);
    assert forall i :: 0 <= i < |fields| ==> back(there(fields[i].key)) == fields[i].key;
    forall i, j | 0 <= i < j < |fields|
      ensures there(fields[i].key) != there(fields[j].key)
    {
      assert fields[i].key != fields[j].key;
    }
    NoCollision(fields, [], there);
    assert [] + mid == mid;
    forall i | 0 <= i < |mid|
      ensures back(mid[i].key) == fields[i].key
    {
    }
    NoCollision(mid, [], back);
    assert Mapped(mid, back) == fields;
    assert [] + fields == fields;
  }

  lemma KeysSurviveWhenRestored(fields: seq<Field>, there: string -> string, back: string -> string, i: nat)
    requires i < |fields| && Rewrite(Rewrite(Obj(fields), there), back) == Obj(fields)
    ensures back(there(fields[i].key)) == fields[i].key
    ensures Rewrite(Rewrite(fields[i].value, there), back) == fields[i].value
  {
    var mid := RewriteFields(fields, [], there);
    RewriteFieldsShape(fields, [], there);
    RewriteFieldsShape(mid, [], back);
    assert mid[i] == Field(there(fields[i].key), Rewrite(fields[i].value, there));
  }

  /** there undone by back restores a value exactly when it restores each of its keys. */
  lemma {:induction false} RoundTripExactly(x: Json, there: string -> string, back: string -> string, p: string -> bool)
    requires WellFormed(x)
    requires forall k :: p(k) <==> back(there(k)) == k
    ensures Rewrite(Rewrite(x, there), back) == x <==> AllKeys(x, p)
    decreases x
  {
    match x
    case Arr(items) =>
      var r := RewriteAll(RewriteAll(items, there), back);
      forall i | 0 <= i < |items|
        ensures r[i] == items[i] <==> AllKeys(items[i], p)
      {
        RewriteAllAt(items, there, i);
        RewriteAllAt(RewriteAll(items, there), back, i);
        RoundTripExactly(items[i], there, back, p);
      }
    case Obj(fields) =>
      forall i | 0 <= i < |fields|
        ensures Rewrite(Rewrite(fields[i].value, there), back) == fields[i].value <==> AllKeys(fields[i].value, p)
      {
        RoundTripExactly(fields[i].value, there, back, p);
      }
      if AllKeys(x, p) {
        RestoredWhenKeysSurvive(fields, there, back);
      }
      if Rewrite(Rewrite(x, there), back) == x {
        forall i | 0 <= i < |fields|
          ensures p(fields[i].key) && AllKeys(fields[i].value, p)
        {
          KeysSurviveWhenRestored(fields, there, back, i);
        }
      }
    case _ =>
  }

  /** Main result: V2 and back restores a value exactly when each of its keys, at every depth,
      satisfies SurvivesV2V1. */
  lemma V2ThenV1Exactly(x: Json)
    requires WellFormed(x)
    ensures ToV1(ToV2(x)) == x <==> AllKeys(x, SurvivesV2V1)
  {
    forall k ensures SurvivesV2V1(k) <==> KeyToV1(KeyToV2(k)) == k {
      KeyV2V1Exactly(k);
    }
    RoundTripExactly(x, KeyToV2, KeyToV1, SurvivesV2V1);
  }

  /** Main result: V1 and back restores a value exactly when each of its keys, at every depth,
      satisfies SurvivesV1V2. */
  lemma V1ThenV2Exactly(x: Json)
    requires WellFormed(x)
    ensures ToV2(ToV1(x)) == x <==> AllKeys(x, SurvivesV1V2)
  {
    forall k ensures SurvivesV1V2(k) <==> KeyToV2(KeyToV1(k)) == k {
      KeyV1V2Exactly(k);
    }
    RoundTripExactly(x, KeyToV1, KeyToV2, SurvivesV1V2);
  }

  lemma {:induction false} CamelCaseKeys(x: Json)
    requires AllKeys(x, (k: string) => '_' !in k)
    ensures AllKeys(x, SurvivesV2V1)
    decreases x
  {
    match x
    case Arr(items) =>
      forall i | 0 <= i < |items| ensures AllKeys(items[i], SurvivesV2V1) { CamelCaseKeys(items[i]); }
    case Obj(fields) =>
      forall i | 0 <= i < |fields| ensures AllKeys(fields[i].value, SurvivesV2V1) { CamelCaseKeys(fields[i].value); }
    case _ =>
  }

  /** A value in camelCase without underscores always survives; so the v1 request form does. */
  lemma {:induction false} CamelCaseSurvives(x: Json)
    requires WellFormed(x) && AllKeys(x, (k: string) => '_' !in k)
    ensures ToV1(ToV2(x)) == x
  {
    CamelCaseKeys(x);
    V2ThenV1Exactly(x);
  }

  /** Keys that come back lose no field on the way there. */
  lemma SurvivorsDoNotCollide(fields: seq<Field>, there: string -> string, back: string -> string)
    requires DistinctKeys(fields) && forall i :: 0 <= i < |fields| ==> back(there(fields[i].key)) == fields[i].key
    ensures |Rewrite(Obj(fields), there).fields| == |fields|
  {
    forall i, j | 0 <= i < j < |fields|
      ensures there(fields[i].key) != there(fields[j].key)
    {
      assert back(there(fields[i].key)) == fields[i].key && back(there(fields[j].key)) == fields[j].key;
    }
    FieldsKeptExactly(fields, there);
  }

  lemma V2KeepsFields(fields: seq<Field>)
    requires DistinctKeys(fields) && forall i :: 0 <= i < |fields| ==> SurvivesV2V1(fields[i].key)
    ensures |ToV2(Obj(fields)).fields| == |fields|
  {
    forall i | 0 <= i < |fields| ensures KeyToV1(KeyToV2(fields[i].key)) == fields[i].key {
      KeyV2V1Exactly(fields[i].key);
    }
    SurvivorsDoNotCollide(fields, KeyToV2, KeyToV1);
  }

  lemma V1KeepsFields(fields: seq<Field>)
    requires DistinctKeys(fields) && forall i :: 0 <= i < |fields| ==> SurvivesV1V2(fields[i].key)
    ensures |ToV1(Obj(fields)).fields| == |fields|
  {
    forall i | 0 <= i < |fields| ensures KeyToV2(KeyToV1(fields[i].key)) == fields[i].key {
      KeyV1V2Exactly(fields[i].key);
    }
    SurvivorsDoNotCollide(fields, KeyToV1, KeyToV2);
  }

  /** Two keys that meet in camelCase and in snake_case: either rewriter loses a field. */
  lemma CollisionLosesField()
    ensures var x := Obj([Field("a_b", Num(1.0)), Field("aB", Num(2.0))]);
      WellFormed(x) && |ToV1(x).fields| == 1 && |ToV2(x).fields| == 1
  {
    assert KeyToV1("a_b") == "aB" == KeyToV1("aB");
    assert KeyToV2("a_b") == "a_b" == KeyToV2("aB");
  }

  /** {"a_b": 1} does not come back from V2, nor {"aB": 1} from V1. */
  lemma RoundTripsFail()
    ensures var x := Obj([Field("a_b", Num(1.0))]); WellFormed(x) && ToV1(ToV2(x)) != x
    ensures var y := Obj([Field("aB", Num(1.0))]); WellFormed(y) && ToV2(ToV1(y)) != y
  {
    var x, y := Obj([Field("a_b", Num(1.0))]), Obj([Field("aB", Num(1.0))]);
    V2ThenV1Exactly(x);
    V1ThenV2Exactly(y);
    assert !SurvivesV2V1("a_b") && !SurvivesV1V2("aB") by {
      assert "a_b"[1] == '_' && IsWord("a_b"[2]) && IsUpper("aB"[1]);
    }
    assert x.fields[0].key == "a_b" && y.fields[0].key == "aB";
  }
}
