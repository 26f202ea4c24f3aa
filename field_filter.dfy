/** `filterFields`: the allow-list a service applies to `data` before it
    writes a row. An absent allow-list is the empty sequence. */
module FieldFilter {
  import opened Values

  /** The entries of `data` whose keys are among `keys`. */
  function KeptOver(data: Record, keys: set<string>): (r: Record)
    ensures forall k :: k in r <==> k in data && k in keys
    ensures forall k :: k in r ==> r[k] == data[k]
  {
    map k | k in data.Keys * keys :: data[k]
  }

  /** What `filterFields(data, allowed)` returns: the input itself when the
      list is empty, otherwise the allowed entries that `data` has (an entry
      holding `undefined` included, since `key in data` holds for it). */
  function Kept(data: Record, allowed: seq<string>): (r: Record)
    ensures |allowed| == 0 ==> r == data
    ensures |allowed| > 0 ==> forall k :: k in r <==> k in data && k in allowed
    ensures forall k :: k in r ==> k in data && r[k] == data[k]
  {
    if |allowed| == 0 then data else KeptOver(data, set k | k in allowed)
  }

  /** The loop of `filterFields`: a fresh object filled one allowed key at
      a time; the input is a value and so cannot change. */
  method FilterFields(data: Record, allowed: seq<string>) returns (filtered: Record)
    ensures filtered == Kept(data, allowed)
  {
    if |allowed| == 0 {
      return data;
    }
    filtered := map[];
    var i := 0;
    while i < |allowed|
      invariant 0 <= i <= |allowed|
      invariant filtered == KeptOver(data, set k | k in allowed[..i])
    {
      var key := allowed[i];
      assert allowed[..i + 1] == allowed[..i] + [key];
      if key in data {
        filtered := filtered[key := data[key]];
      }
      i := i + 1;
    }
    assert allowed[..i] == allowed;
  }
}
