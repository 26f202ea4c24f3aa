/** The line scan shared by the generator's two readers of a Prisma model
    block (`extractModelDefinition` and `extractValidationRules`). The text
    between the model's braces is trimmed and split into lines. A blank
    line or a `//` comment is passed over, and a comment that mentions
    `relation starts` (in any letter case) makes the scan pass over every
    later line. Any other line of at least two words declares a field: its
    name, its type and the words after them. */
module SchemaLines {
  import opened Wrappers
  import opened Strings

  /** `match[1].trim().split('\n')` */
  function BlockLines(block: string): (r: seq<string>)
    ensures |r| >= 1
  {
    Split(Trim(block), '\n')
  }

  /** One field line: `const [field, type, ...rest] = line.trim().split(/\s+/)`. */
  datatype FieldDecl = FieldDecl(field: string, fieldType: string, rest: seq<string>)

  /** What a line is to the scan: passed over (`marker` when it is the
      relation marker), too short to declare a field, or a declaration. */
  datatype Line = Ignored(marker: bool) | Malformed | Declares(decl: FieldDecl)

  /** A blank line or a comment, once trimmed. */
  predicate IsBlankOrComment(trimmed: string) {
    trimmed == "" || StartsWith(trimmed, "//")
  }

  /** `trimmedLine.toLowerCase().includes('relation starts')` */
  predicate IsRelationMarker(trimmed: string) {
    Contains(ToLower(trimmed), "relation starts")
  }

  function Classify(line: string): (l: Line)
    ensures l.Declares? ==> l.decl.field != "" && l.decl.fieldType != ""
  {
    var trimmed := Trim(line);
    if IsBlankOrComment(trimmed) then Ignored(IsRelationMarker(trimmed))
    else
      var words := SplitSpaces(trimmed);
      if |words| < 2 || words[0] == "" || words[1] == "" then Malformed
      else Declares(FieldDecl(words[0], words[1], words[2..]))
  }

  /** A declared name and type are single words. */
  lemma DeclaredWords(line: string)
    requires Classify(line).Declares?
    ensures var d := Classify(line).decl;
      && (forall k :: 0 <= k < |d.field| ==> !IsJsSpace(d.field[k]))
      && (forall k :: 0 <= k < |d.fieldType| ==> !IsJsSpace(d.fieldType[k]))
  {
    var words := SplitSpaces(Trim(line));
    assert words[0] == Classify(line).decl.field && words[1] == Classify(line).decl.fieldType;
  }

  /** How the scan reads each line. */
  function Kinds(lines: seq<string>): (r: seq<Line>)
    ensures |r| == |lines|
    ensures forall i :: 0 <= i < |lines| ==> r[i] == Classify(lines[i])
  {
    seq(|lines|, i requires 0 <= i < |lines| => Classify(lines[i]))
  }

  /** `skipRest` once lines of the given kinds have been scanned. */
  function SkipOf(ls: seq<Line>): bool {
    if |ls| == 0 then false
    else SkipOf(ls[..|ls| - 1]) || ls[|ls| - 1] == Ignored(true)
  }

  /** The declarations the scan reaches among lines of the given kinds. */
  function DeclsOf(ls: seq<Line>): (r: seq<FieldDecl>)
    ensures |r| <= |ls|
  {
    if |ls| == 0 then []
    else
      var before := ls[..|ls| - 1];
      var l := ls[|ls| - 1];
      if !SkipOf(before) && l.Declares? then DeclsOf(before) + [l.decl] else DeclsOf(before)
  }

  /** `skipRest` once the given lines have been scanned. */
  function SkipAfter(lines: seq<string>): bool {
    SkipOf(Kinds(lines))
  }

  /** The declarations the scan reaches, in the order of their lines. */
  function Declarations(lines: seq<string>): (r: seq<FieldDecl>)
    ensures |r| <= |lines|
  {
    DeclsOf(Kinds(lines))
  }

  lemma KindsConcat(a: seq<string>, b: seq<string>)
    ensures Kinds(a + b) == Kinds(a) + Kinds(b)
  {
    var k, ka, kb := Kinds(a + b), Kinds(a), Kinds(b);
    assert forall i :: 0 <= i < |a| ==> (a + b)[i] == a[i];
    assert forall i :: |a| <= i < |a + b| ==> (a + b)[i] == b[i - |a|];
    assert forall i :: 0 <= i < |k| ==> k[i] == (ka + kb)[i];
  }

  lemma KindsPrefix(lines: seq<string>, i: nat)
    requires i <= |lines|
    ensures Kinds(lines[..i]) == Kinds(lines)[..i]
  {
    assert forall j :: 0 <= j < i ==> lines[..i][j] == lines[j];
  }

  /** One more kind, in terms of the kinds before it. */
  lemma KindStep(ls: seq<Line>, l: Line)
    ensures SkipOf(ls + [l]) == (SkipOf(ls) || l == Ignored(true))
    ensures DeclsOf(ls + [l]) == if !SkipOf(ls) && l.Declares? then DeclsOf(ls) + [l.decl] else DeclsOf(ls)
  {
    assert (ls + [l])[..|ls|] == ls;
  }

  lemma {:induction false} SkipStickyOf(la: seq<Line>, lb: seq<Line>)
    requires SkipOf(la)
    ensures SkipOf(la + lb) && DeclsOf(la + lb) == DeclsOf(la)
    decreases |lb|
  {
    if |lb| == 0 {
      assert la + lb == la;
    } else {
      var n := |lb| - 1;
      SkipStickyOf(la, lb[..n]);
      assert la + lb == (la + lb[..n]) + [lb[n]];
      KindStep(la + lb[..n], lb[n]);
    }
  }

  /** Once the marker has been seen, no later line is reached. */
  lemma SkipSticky(a: seq<string>, b: seq<string>)
    requires SkipAfter(a)
    ensures SkipAfter(a + b) && Declarations(a + b) == Declarations(a)
  {
    KindsConcat(a, b);
    SkipStickyOf(Kinds(a), Kinds(b));
  }

  /** Every declaration after the relation marker is passed over. */
  lemma MarkerEndsScan(a: seq<string>, m: string, b: seq<string>)
    requires Classify(m) == Ignored(true)
    ensures Declarations(a + [m] + b) == Declarations(a)
  {
    KindsConcat(a, [m]);
    KindStep(Kinds(a), Classify(m));
    assert Kinds([m]) == [Classify(m)];
    SkipSticky(a + [m], b);
  }

  /** The part of the loop body both readers share: the new `skipRest`,
      and the declaration the line contributes, if any. */
  method ScanLine(line: string, skipRest: bool) returns (skip: bool, decl: Option<FieldDecl>)
    ensures skip == (skipRest || Classify(line) == Ignored(true))
    ensures decl.Some? <==> !skipRest && Classify(line).Declares?
    ensures decl.Some? ==> decl.value == Classify(line).decl
  {
    skip, decl := skipRest, None;
    var trimmedLine := Trim(line);
    if trimmedLine == "" || StartsWith(trimmedLine, "//") {
      if Contains(ToLower(trimmedLine), "relation starts") {
        skip := true;
      }
      return;
    }
    if skipRest {
      return;
    }
    var words := SplitSpaces(trimmedLine);
    if |words| < 2 || words[0] == "" || words[1] == "" {
      return;
    }
    decl := Some(FieldDecl(words[0], words[1], words[2..]));
  }

  /** `KindStep` for the prefixes a loop over `lines` goes through. */
  lemma StepAt(lines: seq<string>, i: nat)
    requires i < |lines|
    ensures SkipAfter(lines[..i + 1]) == (SkipAfter(lines[..i]) || Classify(lines[i]) == Ignored(true))
    ensures Declarations(lines[..i + 1]) ==
      if !SkipAfter(lines[..i]) && Classify(lines[i]).Declares? then Declarations(lines[..i]) + [Classify(lines[i]).decl]
      else Declarations(lines[..i])
  {
    assert lines[..i + 1] == lines[..i] + [lines[i]];
    KindsConcat(lines[..i], [lines[i]]);
    assert Kinds([lines[i]]) == [Classify(lines[i])];
    KindStep(Kinds(lines[..i]), Classify(lines[i]));
  }

  lemma {:induction false} PassedOverOf(la: seq<Line>, k: Line, lb: seq<Line>)
    requires k == Ignored(false) || k == Malformed
    ensures SkipOf(la + [k] + lb) == SkipOf(la + lb)
    ensures DeclsOf(la + [k] + lb) == DeclsOf(la + lb)
    decreases |lb|
  {
    if |lb| == 0 {
      KindStep(la, k);
      assert la + [k] + lb == la + [k] && la + lb == la;
    } else {
      var n := |lb| - 1;
      PassedOverOf(la, k, lb[..n]);
      assert la + [k] + lb == (la + [k] + lb[..n]) + [lb[n]];
      assert la + lb == (la + lb[..n]) + [lb[n]];
      KindStep(la + [k] + lb[..n], lb[n]);
      KindStep(la + lb[..n], lb[n]);
    }
  }

  lemma KindsOne(l: string)
    ensures Kinds([l]) == [Classify(l)]
  {
    var r := Kinds([l]);
    assert |r| == 1 && r[0] == Classify(l);
  }

  /** A blank line, an ordinary comment or a one-word line changes
      nothing for the lines after it. */
  lemma PassedOver(a: seq<string>, l: string, b: seq<string>)
    requires Classify(l) == Ignored(false) || Classify(l) == Malformed
    ensures SkipAfter(a + [l] + b) == SkipAfter(a + b)
    ensures Declarations(a + [l] + b) == Declarations(a + b)
  {
    KindsConcat(a, [l]);
    KindsConcat(a + [l], b);
    KindsConcat(a, b);
    KindsOne(l);
    PassedOverOf(Kinds(a), Classify(l), Kinds(b));
  }

  /** The kind a reached declaration comes from. */
  lemma {:induction false} ReachedFrom(ls: seq<Line>, d: FieldDecl) returns (i: nat)
    requires d in DeclsOf(ls)
    ensures i < |ls| && !SkipOf(ls[..i]) && ls[i] == Declares(d)
    decreases |ls|
  {
    var n := |ls| - 1;
    var before := ls[..n];
    if d in DeclsOf(before) {
      i := ReachedFrom(before, d);
      assert before[..i] == ls[..i] && before[i] == ls[i];
    } else {
      i := n;
    }
  }

  /** A declaring kind that no earlier marker cuts off is reached. */
  lemma {:induction false} ReachedAt(ls: seq<Line>, d: FieldDecl, i: nat)
    requires i < |ls| && !SkipOf(ls[..i]) && ls[i] == Declares(d)
    ensures d in DeclsOf(ls)
    decreases |ls|
  {
    var n := |ls| - 1;
    var before := ls[..n];
    if i < n {
      assert before[..i] == ls[..i] && before[i] == ls[i];
      ReachedAt(before, d, i);
    } else {
      assert before == ls[..i];
    }
  }

  /** Declarations reached are exactly the declaring lines that no earlier
      marker cuts off. */
  lemma ReachedLines(lines: seq<string>, d: FieldDecl)
    ensures d in Declarations(lines) <==>
      exists i :: 0 <= i < |lines| && !SkipAfter(lines[..i]) && Classify(lines[i]) == Declares(d)
  {
    var ls := Kinds(lines);
    if d in Declarations(lines) {
      var i := ReachedFrom(ls, d);
      KindsPrefix(lines, i);
      assert !SkipAfter(lines[..i]) && Classify(lines[i]) == Declares(d);
    }
    forall i | 0 <= i < |lines| && !SkipAfter(lines[..i]) && Classify(lines[i]) == Declares(d)
      ensures d in Declarations(lines)
    {
      KindsPrefix(lines, i);
      ReachedAt(ls, d, i);
    }
  }
}
