/** The generator's derived name of a model:
    `modelName.charAt(0).toLowerCase() + modelName.slice(1)`, used for the
    generated file names, the placeholders of the templates and the
    snippets it inserts into existing files. */
module ModelNames {
  import opened Strings

  function LowerFirst(name: string): (r: string)
    ensures |r| == |name|
  {
    if name == "" then "" else [LowerChar(name[0])] + name[1..]
  }

  /** Only the first character changes, and only from an upper-case ASCII
      letter to its lower-case form. */
  lemma LowerFirstChanges(name: string)
    ensures var r := LowerFirst(name);
      && (forall i :: 1 <= i < |name| ==> r[i] == name[i])
      && (r == name <==> name == "" || !('A' <= name[0] <= 'Z'))
      && (name != "" && 'A' <= name[0] <= 'Z' ==> r[0] as int == name[0] as int + 32)
  {
    if name != "" && 'A' <= name[0] <= 'Z' {
      assert LowerFirst(name)[0] != name[0];
    }
  }

  /** Renaming twice is renaming once. */
  lemma LowerFirstIdempotent(name: string)
    ensures LowerFirst(LowerFirst(name)) == LowerFirst(name)
  {
    if name != "" {
      assert LowerFirst(name)[1..] == name[1..];
    }
  }

  /** A character that is no lower-case ASCII letter is in the derived name
      only when it is in the name. */
  lemma LowerFirstKeepsOut(name: string, c: char)
    requires c !in name && !('a' <= c <= 'z')
    ensures c !in LowerFirst(name)
  {
    if name != "" {
      var r := LowerFirst(name);
      assert forall ch :: ch in r[1..] ==> ch in name;
      assert r == [r[0]] + r[1..];
    }
  }
}
