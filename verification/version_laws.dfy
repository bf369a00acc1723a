/** What the rewriters do to a value, apart from how they compute it. */
module VersionLaws {
  import opened Sequences
  import opened VersionModel
  import opened VersionTheorems

  // ---- Keys ----

  /** An underscore takes an ASCII letter, a digit or another underscore with it, and no other character. */
  lemma PairToV1(c: char)
    ensures KeyToV1(['_', c]) ==
      if 'a' <= c <= 'z' then [(c as int - 32) as char]
      else if 'A' <= c <= 'Z' || '0' <= c <= '9' || c == '_' then [c]
      else ['_', c]
  {
    if IsWord(c) {
      V1Match(c, "");
      assert ['_', c] + "" == ['_', c] && [ToUpper(c)] + "" == [ToUpper(c)];
    } else {
      V1Plain('_', [c]);
      assert ['_'] + [c] == ['_', c] && [c][1..] == "";
    }
  }

  /** Only ASCII capitals are rewritten. */
  lemma CharToV2(c: char)
    ensures KeyToV2([c]) == if 'A' <= c <= 'Z' then ['_', (c as int + 32) as char] else [c]
  {
    V2Cons(c, "");
    assert [c] + "" == [c];
  }

  lemma {:induction false} PlainPrefix(a: string, b: string)
    requires '_' !in a
    ensures KeyToV1(a + b) == a + KeyToV1(b)
    decreases |a|
  {
    if a == "" {
      assert a + b == b;
    } else {
      AppendHead(a, b);
      PlainPrefix(a[1..], b);
      HeadAndTail(a, KeyToV1(b));
    }
  }

  lemma {:induction false} LowerPrefix(a: string, b: string)
    requires forall c <- a :: !IsUpper(c)
    ensures KeyToV2(a + b) == a + KeyToV2(b)
    decreases |a|
  {
    if a == "" {
      assert a + b == b;
    } else {
      assert a[0] in a && forall c <- a[1..] :: c in a;
      AppendHead(a, b);
      LowerPrefix(a[1..], b);
      HeadAndTail(a, KeyToV2(b));
    }
  }

  /** A word, a separator and a word: the examples of the source are "contract", 'i' and "d". */
  lemma TwoWords(a: string, c: char, b: string)
    requires (forall x <- a :: IsLower(x)) && IsLower(c) && (forall x <- b :: IsLower(x))
    ensures KeyToV1(a + (['_', c] + b)) == a + ([ToUpper(c)] + b)
    ensures KeyToV2(a + ([ToUpper(c)] + b)) == a + (['_', c] + b)
  {
    PlainPrefix(a, ['_', c] + b);
    V1Match(c, b);
    PlainPrefix(b, "");
    assert b + "" == b;
    LowerPrefix(a, [ToUpper(c)] + b);
    V2Cons(ToUpper(c), b);
    LowerPrefix(b, "");
  }

  // ---- Fields ----

  /** No later field is renamed to the same key. */
  predicate IsLast(fields: seq<Field>, rename: string -> string, i: nat)
    requires i < |fields|
  {
    forall j :: i < j < |fields| ==> rename(fields[j].key) != rename(fields[i].key)
  }

  predicate KeyIn(fields: seq<Field>, rename: string -> string, key: string) {
    exists i :: 0 <= i < |fields| && rename(fields[i].key) == key
  }

  lemma {:induction false} AssignContents(fields: seq<Field>, key: string, value: Json, f: Field)
    requires DistinctKeys(fields)
    ensures f in Assign(fields, key, value) <==> f == Field(key, value) || (f in fields && f.key != key)
    decreases |fields|
  {
    if fields != [] {
      assert fields == [fields[0]] + fields[1..];
      if fields[0].key != key {
        AssignContents(fields[1..], key, value, f);
      }
    }
  }

  /** f is what some last field becomes. */
  predicate FromLast(fields: seq<Field>, rename: string -> string, f: Field) {
    exists i :: 0 <= i < |fields| && IsLast(fields, rename, i)
      && f == Field(rename(fields[i].key), Rewrite(fields[i].value, rename))
  }

  lemma {:induction false} LoopContents(fields: seq<Field>, done: seq<Field>, rename: string -> string, f: Field)
    requires DistinctKeys(done)
    ensures f in RewriteFields(fields, done, rename) <==>
            FromLast(fields, rename, f) || (f in done && !KeyIn(fields, rename, f.key))
    decreases |fields|
  {
    if fields != [] {
      var key, value := rename(fields[0].key), Rewrite(fields[0].value, rename);
      AssignKeepsDistinct(done, key, value);
      LoopContents(fields[1..], Assign(done, key, value), rename, f);
      AssignContents(done, key, value, f);
    }
  }

  /** Main result: a rewritten object has distinct keys, and its fields are exactly the renamed fields with
      rewritten values, where of those that meet in one key the last one is kept. */
  lemma FieldsExactly(fields: seq<Field>, rename: string -> string, f: Field)
    ensures DistinctKeys(Rewrite(Obj(fields), rename).fields)
    ensures f in Rewrite(Obj(fields), rename).fields <==> FromLast(fields, rename, f)
  {
    KeptAreDistinct(fields, [], rename);
    LoopContents(fields, [], rename, f);
  }

  function KeysOf(fields: seq<Field>): seq<string> {
    if fields == [] then [] else [fields[0].key] + KeysOf(fields[1..])
  }

  /** The renamed keys after `seen`, each where it first occurs. */
  function FirstOccurrences(seen: seq<string>, fields: seq<Field>, rename: string -> string): seq<string>
    decreases |fields|
  {
    if fields == [] then seen
    else
      var key := rename(fields[0].key);
      FirstOccurrences(if key in seen then seen else seen + [key], fields[1..], rename)
  }

  lemma {:induction false} AssignKeys(fields: seq<Field>, key: string, value: Json)
    ensures var keys := KeysOf(fields);
      KeysOf(Assign(fields, key, value)) == if key in keys then keys else keys + [key]
    decreases |fields|
  {
    if fields != [] {
      AssignKeys(fields[1..], key, value);
      assert KeysOf(fields) == [fields[0].key] + KeysOf(fields[1..]);
      if fields[0].key == key {
        assert ([Field(key, value)] + fields[1..])[1..] == fields[1..];
      } else {
        assert ([fields[0]] + Assign(fields[1..], key, value))[1..] == Assign(fields[1..], key, value);
      }
    }
  }

  lemma {:induction false} LoopKeys(fields: seq<Field>, done: seq<Field>, rename: string -> string)
    ensures KeysOf(RewriteFields(fields, done, rename)) == FirstOccurrences(KeysOf(done), fields, rename)
    decreases |fields|
  {
    if fields != [] {
      var key, value := rename(fields[0].key), Rewrite(fields[0].value, rename);
      AssignKeys(done, key, value);
      LoopKeys(fields[1..], Assign(done, key, value), rename);
    }
  }

  /** The fields of a rewritten object are in the order in which their keys first occur. */
  lemma FieldOrder(fields: seq<Field>, rename: string -> string)
    ensures KeysOf(Rewrite(Obj(fields), rename).fields) == FirstOccurrences([], fields, rename)
  {
    LoopKeys(fields, [], rename);
  }

  // ---- Whole values ----

  /** y is x with its keys renamed: the same items in the same order, and the same leaves. */
  predicate Renamed(x: Json, y: Json, rename: string -> string) {
    match x
    case Arr(items) => y.Arr? && |y.items| == |items|
      && forall i :: 0 <= i < |items| ==> Renamed(items[i], y.items[i], rename)
    case Obj(fields) => y.Obj? && |y.fields| == |fields|
      && forall i :: 0 <= i < |fields| ==>
           y.fields[i].key == rename(fields[i].key) && Renamed(fields[i].value, y.fields[i].value, rename)
    case Null => y == x
    case Bool(_) => y == x
    case Num(_) => y == x
    case Str(_) => y == x
  }

  /** In no object, at any depth, do two renamed keys meet. */
  predicate KeepsApart(x: Json, rename: string -> string) {
    match x
    case Arr(items) => forall i :: 0 <= i < |items| ==> KeepsApart(items[i], rename)
    case Obj(fields) =>
      && (forall i, j :: 0 <= i < j < |fields| ==> rename(fields[i].key) != rename(fields[j].key))
      && forall i :: 0 <= i < |fields| ==> KeepsApart(fields[i].value, rename)
    case _ => true
  }

  /** Main result: where no keys meet, only keys change: items, leaves and the order of fields stay. */
  lemma {:induction false} OnlyKeysChange(x: Json, rename: string -> string)
    requires KeepsApart(x, rename)
    ensures Renamed(x, Rewrite(x, rename), rename)
    decreases x
  {
    match x
    case Arr(items) =>
      forall i | 0 <= i < |items| ensures Renamed(items[i], RewriteAll(items, rename)[i], rename) {
        RewriteAllAt(items, rename, i);
        OnlyKeysChange(items[i], rename);
      }
    case Obj(fields) =>
      NoCollision(fields, [], rename);
      var r := RewriteFields(fields, [], rename);
      assert r == Mapped(fields, rename);
      forall i | 0 <= i < |fields|
        ensures r[i].key == rename(fields[i].key) && Renamed(fields[i].value, r[i].value, rename)
      {
        OnlyKeysChange(fields[i].value, rename);
      }
    case _ =>
  }
}
