/** `convertToArray` of `src/utils/common.ts`: a comma-separated list of
    file types becomes its trimmed pieces, and a list is kept as it is. */
module Common {
  import opened Strings

  /** `string | string[]` */
  datatype FileTypes = Text(s: string) | List(items: seq<string>)

  /** A character that is not in a string is not in its trimmed form. */
  lemma TrimKeepsOut(s: string, c: char)
    requires c !in s
    ensures c !in Trim(s)
  {
    var r := Trim(s);
    var p, q := TrimSplit(s);
    forall i | 0 <= i < |r| ensures r[i] != c {
      assert r[i] == s[|p| + i];
    }
  }

  /** `fileType.split(',').map((item) => item.trim())` for a string, the
      list itself otherwise. */
  function ConvertToArray(fileType: FileTypes): (r: seq<string>)
    ensures fileType.List? ==> r == fileType.items
    ensures fileType.Text? ==> |r| == |Split(fileType.s, ',')|
    ensures fileType.Text? ==> forall i :: 0 <= i < |r| ==> r[i] == Trim(Split(fileType.s, ',')[i])
    ensures fileType.Text? ==> |r| == CountWhere(fileType.s, x => x == ',') + 1
    ensures fileType.Text? ==> forall i :: 0 <= i < |r| ==>
      && ',' !in r[i]
      && (r[i] == [] || (!IsJsSpace(r[i][0]) && !IsJsSpace(r[i][|r[i]| - 1])))
  {
    match fileType
    case Text(s) =>
      var pieces := Split(s, ',');
      SplitCount(s, ',');
      forall i | 0 <= i < |pieces| ensures ',' !in Trim(pieces[i]) {
        TrimKeepsOut(pieces[i], ',');
      }
      seq(|pieces|, i requires 0 <= i < |pieces| => Trim(pieces[i]))
    case List(items) => items
  }

  /** Every character of a piece comes from the string split. */
  lemma {:induction false} PiecesFromString(s: string, isSep: char -> bool)
    ensures forall i, c :: 0 <= i < |SplitBy(s, isSep)| && c in SplitBy(s, isSep)[i] ==> c in s
  {
    if |s| > 0 {
      PiecesFromString(s[1..], isSep);
      var rest := SplitBy(s[1..], isSep);
      var r := SplitBy(s, isSep);
      forall i, c | 0 <= i < |r| && c in r[i] ensures c in s {
        if isSep(s[0]) {
          assert r[i] == if i == 0 then "" else rest[i - 1];
        } else if i == 0 {
          assert c == s[0] || c in rest[0];
        } else {
          assert r[i] == rest[i];
        }
        assert c in s[1..] ==> c in s;
      }
    }
  }

  /** A string without white space trims to itself. */
  lemma TrimNoSpace(s: string)
    requires forall i :: 0 <= i < |s| ==> !IsJsSpace(s[i])
    ensures Trim(s) == s
  {
    var t := TrimStart(s);
    assert t == s;
  }

  /** Without white space in the list, joining the result with `,` gives
      the list back. */
  lemma JoinsBack(s: string)
    requires forall c :: c in s ==> !IsJsSpace(c)
    ensures Join(ConvertToArray(Text(s)), ",") == s
  {
    var pieces := Split(s, ',');
    var r := ConvertToArray(Text(s));
    SplitJoin(s, ',');
    PiecesFromString(s, x => x == ',');
    forall i | 0 <= i < |pieces| ensures r[i] == pieces[i] {
      forall k | 0 <= k < |pieces[i]| ensures !IsJsSpace(pieces[i][k]) {
        assert pieces[i][k] in pieces[i];
      }
      TrimNoSpace(pieces[i]);
    }
    assert r == pieces;
  }
}
