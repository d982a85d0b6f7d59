/** The keyed lookup helper shared by the deserialisers. */
module Utils {
  import opened Variants

  /** The message find_or_throw puts into its InvalidArgumentException. */
  function MissingElementMessage(context: string, key: string): string
  {
    context + ": missing '" + key + "' element"
  }

  /** find_or_throw: the entry stored under `key` (the iterator's key and value),
      or an InvalidArgumentException naming the context and the key. The map is a
      value parameter, so it cannot change. */
  function FindOrThrow(context: string, m: VariantMap, key: string): (r: Result<(string, Variant)>)
    ensures r.Ok? <==> key in m
    ensures r.Ok? ==> r.value.0 == key && r.value.1 == m[key]
    ensures r.Err? ==> r.error == InvalidArgument(context + ": missing '" + key + "' element")
  {
    if key in m then Ok((key, m[key])) else Err(InvalidArgument(MissingElementMessage(context, key)))
  }

  /** The failure message starts with the context and ends with the quoted key, so
      two lookups that fail for different keys in the same context report
      different messages. */
  lemma {:induction false} MissingMessageNamesKey(context: string, m: VariantMap, k1: string, k2: string)
    requires k1 !in m && k2 !in m && k1 != k2
    ensures FindOrThrow(context, m, k1).error != FindOrThrow(context, m, k2).error
  {
    var p := context + ": missing '";
    var s := "' element";
    var m1 := p + k1 + s;
    var m2 := p + k2 + s;
    if |k1| != |k2| {
      assert |m1| != |m2|;
    } else {
      var i :| 0 <= i < |k1| && k1[i] != k2[i];
      assert m1[|p| + i] == k1[i] && m2[|p| + i] == k2[i];
    }
  }
}
