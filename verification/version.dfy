/** The recursive rewriters with their loops, as transformToV1 and transformToV2 run them. */
module VersionTransformers {
  import opened VersionModel

  method TransformKeys(x: Json, rename: string -> string) returns (r: Json)
    ensures r == Rewrite(x, rename)
    decreases x
  {
    match x
    case Arr(items) =>
      var newItems := [];
      assert items[0..] == items;
      for i := 0 to |items|
        invariant RewriteAll(items, rename) == newItems + RewriteAll(items[i..], rename)
      {
        var item := TransformKeys(items[i], rename);
        assert items[i..][1..] == items[i + 1..];
        newItems := newItems + [item];
      }
      return Arr(newItems);
    case Obj(fields) =>
      var newObj := [];
      assert fields[0..] == fields;
      for i := 0 to |fields|
        invariant RewriteFields(fields, [], rename) == RewriteFields(fields[i..], newObj, rename)
      {
        var value := TransformKeys(fields[i].value, rename);
        assert fields[i..][1..] == fields[i + 1..];
        newObj := Assign(newObj, rename(fields[i].key), value);
      }
      return Obj(newObj);
    case _ =>
      return x;
  }

  method TransformToV1(x: Json) returns (r: Json)
    ensures r == ToV1(x)
  {
    r := TransformKeys(x, KeyToV1);
  }

  method TransformToV2(x: Json) returns (r: Json)
    ensures r == ToV2(x)
  {
    r := TransformKeys(x, KeyToV2);
  }
}
