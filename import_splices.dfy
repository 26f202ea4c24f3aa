/** The generator's edits of three existing files:
    `addImportsToInversifyConfig`, `addImportsToV1Routes` and
    `addImportsToSwaggerConfig`. Each takes the file's text and gives the
    text it writes back: unchanged when the model's names are already
    present, and otherwise with each snippet spliced in just before the
    first occurrence of its marker line, when that marker is found. Reading
    and writing the files and the console messages are not modelled. */
module ImportSplices {
  import opened Strings
  import opened ModelNames

  // ------------------------------------------------------------ splicing

  /** The position JavaScript's `slice` takes index `k` to, in a string of
      length `len`: a negative index counts from the end. */
  function SliceIndex(len: nat, k: int): (p: nat)
    ensures p <= len
    ensures 0 <= k <= len ==> p == k
    ensures k == -1 && len > 0 ==> p == len - 1
  {
    if k < 0 then (if len + k < 0 then 0 else len + k)
    else if k > len then len
    else k
  }

  /** `content.slice(0, k) + snippet + content.slice(k)` */
  function Splice(content: string, k: int, snippet: string): string {
    var p := SliceIndex(|content|, k);
    content[..p] + snippet + content[p..]
  }

  /** A splice puts the snippet at the position and keeps the rest: taking
      the snippet out again gives the content back. */
  lemma SpliceShape(content: string, p: nat, snippet: string)
    requires p <= |content|
    ensures var r := Splice(content, p, snippet);
      && |r| == |content| + |snippet|
      && OccursAt(r, snippet, p)
      && r[..p] + r[p + |snippet|..] == content
  {
    var r := Splice(content, p, snippet);
    assert r[p..p + |snippet|] == snippet;
    assert r[..p] == content[..p] && r[p + |snippet|..] == content[p..];
  }

  /** One step of the helpers: the snippet goes just before the first
      occurrence of the marker, and nowhere when there is none. */
  function InsertBefore(content: string, marker: string, snippet: string): string {
    var k := IndexOf(content, marker);
    if k != -1 then Splice(content, k, snippet) else content
  }

  lemma InsertBeforeMarker(content: string, marker: string, snippet: string)
    ensures var r := InsertBefore(content, marker, snippet);
      && (!Contains(content, marker) ==> r == content)
      && (Contains(content, marker) ==>
            var k := IndexOf(content, marker);
            && r[..k] + r[k + |snippet|..] == content
            && OccursAt(r, snippet, k)
            && OccursAt(r, marker, k + |snippet|))
  {
    var k := IndexOf(content, marker);
    if k != -1 {
      var r := Splice(content, k, snippet);
      SpliceShape(content, k, snippet);
      assert r[k + |snippet|..k + |snippet| + |marker|] == content[k..k + |marker|];
    }
  }

  /** A string that contains `sub` keeps it when text follows. */
  lemma ContainsExtend(p: string, q: string, sub: string)
    requires Contains(p, sub)
    ensures Contains(p + q, sub)
  {
    var j := IndexOf(p, sub);
    assert (p + q)[j..j + |sub|] == p[j..j + |sub|];
    ContainsAt(p + q, sub, j);
  }

  /** `a + x + b` contains `x`. */
  lemma ContainsPiece(a: string, x: string, b: string)
    ensures Contains(a + x + b, x)
  {
    assert (a + x + b)[|a|..|a| + |x|] == x;
    ContainsAt(a + x + b, x, |a|);
  }

  /** What a splice contains it keeps: the occurrence moves with the text
      around it, unless the splice falls inside it. */
  lemma SpliceKeeps(c: string, sub: string, j: nat, p: nat, snippet: string)
    requires OccursAt(c, sub, j) && p <= |c| && !(j < p < j + |sub|)
    ensures var r := Splice(c, p, snippet);
      var j' := if p <= j then j + |snippet| else j;
      && OccursAt(r, sub, j')
      && (j + |sub| < |c| && p != j + |sub| ==> j' + |sub| < |r| && r[j' + |sub|] == c[j + |sub|])
  {
    var r := Splice(c, p, snippet);
    SpliceShape(c, p, snippet);
    if p <= j {
      assert r[j + |snippet|..j + |snippet| + |sub|] == c[j..j + |sub|];
    } else {
      assert r[j..j + |sub|] == c[j..j + |sub|];
    }
  }

  /** A marker does not start inside an occurrence of `sub`, nor right
      after it, when one of the marker's characters is not in `sub` and the
      character that follows the occurrence is not in the marker. */
  lemma NoSplit(c: string, sub: string, j: nat, marker: string, p: nat, k: nat)
    requires OccursAt(c, sub, j) && j + |sub| < |c| && c[j + |sub|] !in marker
    requires OccursAt(c, marker, p) && k < |marker| && marker[k] !in sub
    ensures !(j < p <= j + |sub|)
  {
  }

  /** An occurrence of `sub` survives a splice before `marker` when the
      marker cannot start inside it or right after it. */
  lemma KeptPastMarker(c: string, sub: string, j: nat, marker: string, snippet: string, k: nat) returns (j': nat)
    requires OccursAt(c, sub, j) && j + |sub| < |c| && c[j + |sub|] !in marker
    requires k < |marker| && marker[k] !in sub
    ensures var r := InsertBefore(c, marker, snippet);
      OccursAt(r, sub, j') && j' + |sub| < |r| && r[j' + |sub|] == c[j + |sub|]
  {
    var p := IndexOf(c, marker);
    if p == -1 {
      j' := j;
    } else {
      NoSplit(c, sub, j, marker, p, k);
      SpliceKeeps(c, sub, j, p, snippet);
      j' := if p <= j then j + |snippet| else j;
    }
  }

  /** What a snippet names it still names once spliced in before a marker
      the content has. */
  lemma SplicedIn(content: string, marker: string, snippet: string, sub: string, j0: nat) returns (j: nat)
    requires Contains(content, marker)
    requires OccursAt(snippet, sub, j0) && j0 + |sub| < |snippet|
    ensures var c1 := InsertBefore(content, marker, snippet);
      OccursAt(c1, sub, j) && j + |sub| < |c1| && c1[j + |sub|] == snippet[j0 + |sub|]
  {
    var k := IndexOf(content, marker);
    InsertBeforeMarker(content, marker, snippet);
    OccursWithin(InsertBefore(content, marker, snippet), snippet, k, sub, j0);
    j := k + j0;
  }

  /** `SplicedIn`, then `KeptPastMarker` for a second marker that starts
      with a character `sub` lacks. */
  lemma SplicedThenKept(content: string, m1: string, s1: string, sub: string, j0: nat, m2: string, s2: string)
    returns (j: nat)
    requires Contains(content, m1)
    requires OccursAt(s1, sub, j0) && j0 + |sub| < |s1|
    requires |m2| > 0 && m2[0] !in sub && s1[j0 + |sub|] !in m2
    ensures var c2 := InsertBefore(InsertBefore(content, m1, s1), m2, s2);
      OccursAt(c2, sub, j) && j + |sub| < |c2| && c2[j + |sub|] == s1[j0 + |sub|]
  {
    var j1 := SplicedIn(content, m1, s1, sub, j0);
    j := KeptPastMarker(InsertBefore(content, m1, s1), sub, j1, m2, s2, 0);
  }

  // ------------------------------------------------ inversifyConfig.ts

  const ContainerLine := "const container = new Container();"
  const ContainerExport := "export default container;"

  /** The two imports, with a line of two spaces around them. */
  function InversifyImports(modelName: string): string {
    var lower := LowerFirst(modelName);
    "  \nimport { " + (modelName + "Controller") + (" } from '../controllers/" + lower + "Controller';\nimport { ")
    + (modelName + "Service") + (" } from '../services/" + lower + "Service';\n  \n  ")
  }

  /** The two bindings, with a line of two spaces around them. */
  function InversifyBinds(modelName: string): string {
    "  \ncontainer.bind<" + (modelName + "Controller") + (">(" + modelName + "Controller).toSelf();\ncontainer.bind<")
    + (modelName + "Service") + (">(" + modelName + "Service).toSelf();\n  \n  ")
  }

  /** `importsExist` */
  predicate InversifyImportsExist(modelName: string, content: string) {
    Contains(content, modelName + "Controller") && Contains(content, modelName + "Service")
  }

  /** The text `addImportsToInversifyConfig` leaves in the file. */
  function InversifyConfig(modelName: string, content: string): string {
    if InversifyImportsExist(modelName, content) then content
    else InsertBefore(InsertBefore(content, ContainerLine, InversifyImports(modelName)),
                      ContainerExport, InversifyBinds(modelName))
  }

  method AddImportsToInversifyConfig(modelName: string, content: string) returns (written: string)
    ensures written == InversifyConfig(modelName, content)
  {
    var newImports := InversifyImports(modelName);
    var newBinds := InversifyBinds(modelName);
    var importsExist := Contains(content, modelName + "Controller") && Contains(content, modelName + "Service");
    if importsExist {
      return content;
    }
    written := content;
    var containerLineIndex := IndexOf(written, ContainerLine);
    if containerLineIndex != -1 {
      written := Splice(written, containerLineIndex, newImports);
    }
    var containerBindIndex := IndexOf(written, ContainerExport);
    if containerBindIndex != -1 {
      written := Splice(written, containerBindIndex, newBinds);
    }
  }

  lemma InversifySnippetsName(modelName: string)
    ensures InversifyImportsExist(modelName, InversifyImports(modelName))
    ensures InversifyImportsExist(modelName, InversifyBinds(modelName))
  {
    var lower := LowerFirst(modelName);
    var c, s := modelName + "Controller", modelName + "Service";
    var i1, i2 := "  \nimport { ", " } from '../controllers/" + lower + "Controller';\nimport { ";
    var i3 := " } from '../services/" + lower + "Service';\n  \n  ";
    ContainsPiece(i1, c, i2);
    ContainsExtend(i1 + c + i2, s, c);
    ContainsExtend(i1 + c + i2 + s, i3, c);
    ContainsPiece(i1 + c + i2, s, i3);
    var b1, b2 := "  \ncontainer.bind<", ">(" + modelName + "Controller).toSelf();\ncontainer.bind<";
    var b3 := ">(" + modelName + "Service).toSelf();\n  \n  ";
    ContainsPiece(b1, c, b2);
    ContainsExtend(b1 + c + b2, s, c);
    ContainsExtend(b1 + c + b2 + s, b3, c);
    ContainsPiece(b1 + c + b2, s, b3);
  }

  /** Both snippets name the controller and the service, so a second run
      finds them and changes nothing: the edit is idempotent. */
  lemma InversifyIdempotent(modelName: string, content: string)
    ensures InversifyConfig(modelName, InversifyConfig(modelName, content)) == InversifyConfig(modelName, content)
  {
    if !InversifyImportsExist(modelName, content) {
      var imports, binds := InversifyImports(modelName), InversifyBinds(modelName);
      var c1 := InsertBefore(content, ContainerLine, imports);
      var c2 := InsertBefore(c1, ContainerExport, binds);
      InversifySnippetsName(modelName);
      InsertBeforeMarker(content, ContainerLine, imports);
      InsertBeforeMarker(c1, ContainerExport, binds);
      if Contains(c1, ContainerExport) {
        var k := IndexOf(c1, ContainerExport);
        assert c2 == c1[..k] + binds + c1[k..];
        ContainsInside(c1[..k], binds, c1[k..], modelName + "Controller");
        ContainsInside(c1[..k], binds, c1[k..], modelName + "Service");
      } else if Contains(content, ContainerLine) {
        var k := IndexOf(content, ContainerLine);
        assert c2 == c1 == content[..k] + imports + content[k..];
        ContainsInside(content[..k], imports, content[k..], modelName + "Controller");
        ContainsInside(content[..k], imports, content[k..], modelName + "Service");
      }
    }
  }

  // ------------------------------------------------------------- v1.ts

  const RouterLine := "const router = Router();"
  const RouterExport := "export default router;"

  function V1Imports(modelName: string): string {
    var lower := LowerFirst(modelName);
    "import " + modelName + "Routes from './" + (lower + "Routes") + "';\n    "
  }

  /** The binding up to the router's name. */
  function V1BindLead(modelName: string): string {
    "router.use('/api/v1/" + LowerFirst(modelName) + "', authMiddleware, "
  }

  function V1Binds(modelName: string): string {
    V1BindLead(modelName) + (modelName + "Routes") + ");\n    "
  }

  /** `importsExist`: the derived name followed by `Routes`. */
  predicate V1ImportsExist(modelName: string, content: string) {
    Contains(content, LowerFirst(modelName) + "Routes")
  }

  /** The text `addImportsToV1Routes` leaves in the file. */
  function V1Routes(modelName: string, content: string): string {
    if V1ImportsExist(modelName, content) then content
    else InsertBefore(InsertBefore(content, RouterLine, V1Imports(modelName)), RouterExport, V1Binds(modelName))
  }

  method AddImportsToV1Routes(modelName: string, content: string) returns (written: string)
    ensures written == V1Routes(modelName, content)
  {
    var modelNameLowerCase := LowerFirst(modelName);
    var newImports := V1Imports(modelName);
    var newBinds := V1Binds(modelName);
    var importsExist := Contains(content, modelNameLowerCase + "Routes");
    if importsExist {
      return content;
    }
    written := content;
    var containerLineIndex := IndexOf(written, RouterLine);
    if containerLineIndex != -1 {
      written := Splice(written, containerLineIndex, newImports);
    }
    var containerBindIndex := IndexOf(written, RouterExport);
    if containerBindIndex != -1 {
      written := Splice(written, containerBindIndex, newBinds);
    }
  }

  /** The import names the derived name's routes, followed by a quote. */
  lemma V1ImportNames(modelName: string) returns (j: nat)
    ensures var sub := LowerFirst(modelName) + "Routes";
      && OccursAt(V1Imports(modelName), sub, j)
      && j + |sub| < |V1Imports(modelName)| && V1Imports(modelName)[j + |sub|] == '\''
  {
    var sub := LowerFirst(modelName) + "Routes";
    var a := "import " + modelName + "Routes from './";
    var s := V1Imports(modelName);
    assert s == a + sub + "';\n    ";
    assert s[|a|..|a| + |sub|] == sub;
    j := |a|;
  }

  /** An occurrence inside a piece of a text is an occurrence in the
      text, followed by the same character. */
  lemma OccursWithin(c: string, s: string, k: nat, sub: string, j0: nat)
    requires OccursAt(c, s, k) && OccursAt(s, sub, j0) && j0 + |sub| < |s|
    ensures OccursAt(c, sub, k + j0) && k + j0 + |sub| < |c| && c[k + j0 + |sub|] == s[j0 + |sub|]
  {
    forall t | 0 <= t < |s| ensures c[k + t] == s[t] {
      assert c[k..k + |s|][t] == s[t];
    }
    assert c[k + j0..k + j0 + |sub|] == s[j0..j0 + |sub|];
  }

  /** After the import is spliced in, the text names the derived name's
      routes, followed by a quote. */
  lemma V1ImportSpliced(modelName: string, content: string) returns (j: nat)
    requires Contains(content, RouterLine)
    ensures var sub := LowerFirst(modelName) + "Routes";
      var c1 := InsertBefore(content, RouterLine, V1Imports(modelName));
      OccursAt(c1, sub, j) && j + |sub| < |c1| && c1[j + |sub|] == '\''
  {
    var j0 := V1ImportNames(modelName);
    var sub := LowerFirst(modelName) + "Routes";
    j := SplicedIn(content, RouterLine, V1Imports(modelName), sub, j0);
    var c1 := InsertBefore(content, RouterLine, V1Imports(modelName));
    assert OccursAt(c1, sub, j) && j + |sub| < |c1|;
    assert c1[j + |sub|] == V1Imports(modelName)[j0 + |sub|] == '\'';
  }

  /** Once the import marker is found, a second run finds the import and
      changes nothing. */
  lemma V1IdempotentWithImportMarker(modelName: string, content: string)
    requires Contains(content, RouterLine) && ';' !in modelName
    ensures V1Routes(modelName, V1Routes(modelName, content)) == V1Routes(modelName, content)
  {
    if !V1ImportsExist(modelName, content) {
      var c1 := InsertBefore(content, RouterLine, V1Imports(modelName));
      var j := V1ImportSpliced(modelName, content);
      LowerFirstKeepsOut(modelName, ';');
      V1BindSpliced(modelName, c1, j);
    }
  }

  /** The binding spliced in after the import keeps the import whole. */
  lemma V1BindSpliced(modelName: string, c1: string, j: nat)
    requires ';' !in LowerFirst(modelName)
    requires var sub := LowerFirst(modelName) + "Routes";
      OccursAt(c1, sub, j) && j + |sub| < |c1| && c1[j + |sub|] == '\''
    ensures V1ImportsExist(modelName, InsertBefore(c1, RouterExport, V1Binds(modelName)))
  {
    var sub := LowerFirst(modelName) + "Routes";
    assert ';' !in sub && RouterExport[21] == ';' && '\'' !in RouterExport;
    var j' := KeptPastMarker(c1, sub, j, RouterExport, V1Binds(modelName), 21);
    ContainsAt(InsertBefore(c1, RouterExport, V1Binds(modelName)), sub, j');
  }

  /** When the derived name is the name itself, the binding names the
      routes too, and a second run changes nothing whichever marker was
      found. */
  lemma V1IdempotentLowerName(modelName: string, content: string)
    requires LowerFirst(modelName) == modelName
    ensures V1Routes(modelName, V1Routes(modelName, content)) == V1Routes(modelName, content)
  {
    if !V1ImportsExist(modelName, content) {
      var sub := modelName + "Routes";
      var imports, binds := V1Imports(modelName), V1Binds(modelName);
      var c1 := InsertBefore(content, RouterLine, imports);
      var c2 := InsertBefore(c1, RouterExport, binds);
      InsertBeforeMarker(content, RouterLine, imports);
      InsertBeforeMarker(c1, RouterExport, binds);
      var b1 := "router.use('/api/v1/" + modelName + "', authMiddleware, ";
      assert binds == b1 + sub + ");\n    ";
      ContainsPiece(b1, sub, ");\n    ");
      var j0 := V1ImportNames(modelName);
      ContainsAt(imports, sub, j0);
      if Contains(c1, RouterExport) {
        var k := IndexOf(c1, RouterExport);
        ContainsInside(c1[..k], binds, c1[k..], sub);
      } else if Contains(content, RouterLine) {
        var k := IndexOf(content, RouterLine);
        assert c2 == content[..k] + imports + content[k..];
        ContainsInside(content[..k], imports, content[k..], sub);
      }
    }
  }

  /** In the binding followed by the export line, the only `R` is the one
      of the model's `Routes`, when the name has none. */
  lemma CharAt(s: string, sub: string, j: int, t: nat)
    requires OccursAt(s, sub, j) && t < |sub|
    ensures s[j + t] == sub[t]
  {
    assert s[j..j + |sub|][t] == sub[t];
  }

  lemma PrefixAt(s: string, sub: string, j: int, n: nat)
    requires OccursAt(s, sub, j) && n <= |sub|
    ensures s[j..j + n] == sub[..n]
  {
    assert s[j..j + n] == s[j..j + |sub|][..n];
  }

  /** Where a character occurs only once, that is the only place it is
      found. */
  lemma OnlyAt(a: string, c: char, b: string, q: nat)
    requires c !in a && c !in b && q < |a + [c] + b| && (a + [c] + b)[q] == c
    ensures q == |a|
  {
  }

  /** What follows the `R` of `${modelName}Routes`. */
  const V1BindRest := "outes);\n    " + RouterExport

  lemma V1BindParts(modelName: string)
    ensures V1Binds(modelName) + RouterExport == (V1BindLead(modelName) + modelName) + ['R'] + V1BindRest
  {
  }

  lemma NoRInBinding(modelName: string)
    requires 'R' !in modelName
    ensures 'R' !in V1BindLead(modelName) + modelName && 'R' !in V1BindRest
  {
    LowerFirstKeepsOut(modelName, 'R');
  }

  lemma OnlyRoutesR(modelName: string, q: nat)
    requires 'R' !in modelName
    requires q < |V1Binds(modelName) + RouterExport| && (V1Binds(modelName) + RouterExport)[q] == 'R'
    ensures q == |V1BindLead(modelName)| + |modelName|
  {
    V1BindParts(modelName);
    NoRInBinding(modelName);
    OnlyAt(V1BindLead(modelName) + modelName, 'R', V1BindRest, q);
  }

  /** The first run on a text that is only the export line puts the
      binding in front of it. */
  lemma V1FirstRunOnExport(modelName: string)
    requires 'R' !in modelName
    ensures V1Routes(modelName, RouterExport) == V1Binds(modelName) + RouterExport
  {
    var sub := LowerFirst(modelName) + "Routes";
    assert sub[|LowerFirst(modelName)|] == 'R' && 'R' !in RouterExport;
    AbsentAt(RouterExport, sub, |LowerFirst(modelName)|);
    assert IndexOf(RouterExport, RouterLine) == -1;
    assert IndexOf(RouterExport, RouterExport) == 0;
  }

  /** After that run the text names `${modelName}Routes` only, which is
      not the derived name's routes. */
  lemma V1BindNotImportAt(modelName: string, j: int)
    requires modelName != "" && 'A' <= modelName[0] <= 'Z' && 'R' !in modelName
    ensures !OccursAt(V1Binds(modelName) + RouterExport, LowerFirst(modelName) + "Routes", j)
  {
    var lower := LowerFirst(modelName);
    var sub := lower + "Routes";
    var once := V1Binds(modelName) + RouterExport;
    var lead := V1BindLead(modelName);
    LowerFirstChanges(modelName);
    V1BindParts(modelName);
    assert once[|lead|..|lead| + |modelName|] == modelName;
    assert sub[..|lower|] == lower && sub[|lower|] == 'R';
    if OccursAt(once, sub, j) {
      CharAt(once, sub, j, |lower|);
      PrefixAt(once, sub, j, |lower|);
      OnlyRoutesR(modelName, j + |lower|);
    }
  }

  lemma V1BindNotImport(modelName: string)
    requires modelName != "" && 'A' <= modelName[0] <= 'Z' && 'R' !in modelName
    ensures !V1ImportsExist(modelName, V1Binds(modelName) + RouterExport)
  {
    forall j ensures !OccursAt(V1Binds(modelName) + RouterExport, LowerFirst(modelName) + "Routes", j) {
      V1BindNotImportAt(modelName, j);
    }
  }

  /** Nor does it hold the import marker, whose `R` would have to be that
      of `Routes`. */
  lemma V1BindNoRouterLineAt(modelName: string, j: int)
    requires 'R' !in modelName
    ensures !OccursAt(V1Binds(modelName) + RouterExport, RouterLine, j)
  {
    var once := V1Binds(modelName) + RouterExport;
    var lead := V1BindLead(modelName);
    V1BindParts(modelName);
    assert once[|lead| + |modelName| + 5] == 's';
    assert RouterLine[15] == 'R' && RouterLine[20] == 'r';
    if OccursAt(once, RouterLine, j) {
      CharAt(once, RouterLine, j, 15);
      CharAt(once, RouterLine, j, 20);
      OnlyRoutesR(modelName, j + 15);
    }
  }

  lemma V1BindNoRouterLine(modelName: string)
    requires 'R' !in modelName
    ensures !Contains(V1Binds(modelName) + RouterExport, RouterLine)
  {
    forall j ensures !OccursAt(V1Binds(modelName) + RouterExport, RouterLine, j) {
      V1BindNoRouterLineAt(modelName, j);
    }
  }

  /** With only the export marker, a model name that starts in upper case
      is not found by `importsExist` after the first run, because the
      binding names `${modelName}Routes`, not the derived name: a second
      run adds the binding again. */
  lemma V1RepeatsBinding(modelName: string)
    requires modelName != "" && 'A' <= modelName[0] <= 'Z' && 'R' !in modelName
    ensures var once := V1Routes(modelName, RouterExport);
      && once == V1Binds(modelName) + RouterExport
      && |V1Routes(modelName, once)| == |once| + |V1Binds(modelName)|
  {
    V1FirstRunOnExport(modelName);
    V1BindNotImport(modelName);
    V1BindNoRouterLine(modelName);
    var binds := V1Binds(modelName);
    var once := binds + RouterExport;
    assert OccursAt(once, RouterExport, |binds|);
    var p := IndexOf(once, RouterExport);
    SpliceShape(once, p, binds);
  }

  // ---------------------------------------------------- swaggerConfig.ts

  const PathImportsEnd := "// Path Imports ends"
  const DefinitionImportsEnd := "// Definition Imports ends"
  const PathsHere := "// register new paths here"
  /** The marker as the source spells it. */
  const DefinitionsHere := "// register new defintions here"

  function PathImport(lower: string): string {
    "import " + lower + "Paths from './paths/" + (lower + "Paths") + "';\n  "
  }

  function DefinitionImport(lower: string): string {
    "import " + lower + "Definitions from './definitions/" + lower + "Definition';\n  "
  }

  function PathInclude(lower: string): string {
    "..." + (lower + "Paths") + ",\n  "
  }

  function DefinitionInclude(lower: string): string {
    "..." + lower + "Definitions,\n  "
  }

  /** `importsExist`: the derived name followed by `Paths`. */
  predicate SwaggerImportsExist(modelName: string, content: string) {
    Contains(content, LowerFirst(modelName) + "Paths")
  }

  /** The text after the path import. */
  function PathImportStage(lower: string, content: string): string {
    InsertBefore(content, PathImportsEnd, PathImport(lower))
  }

  /** Whether the definition-import marker is found after the path import:
      the fourth splice tests this, not its own marker. */
  predicate DefinitionMarkerFound(lower: string, content: string) {
    Contains(PathImportStage(lower, content), DefinitionImportsEnd)
  }

  /** The text after the first three splices. */
  function IncludeStage(lower: string, content: string): string {
    InsertBefore(InsertBefore(PathImportStage(lower, content), DefinitionImportsEnd, DefinitionImport(lower)),
                 PathsHere, PathInclude(lower))
  }

  /** The text `addImportsToSwaggerConfig` leaves in the file. When the
      definition-import marker is found but the definitions marker is not,
      `indexOf` gives -1 and the definition include goes before the last
      character. */
  function SwaggerConfig(modelName: string, content: string): string {
    if SwaggerImportsExist(modelName, content) then content
    else AllSpliced(LowerFirst(modelName), content)
  }

  /** The four splices, the last one as written. */
  function AllSpliced(lower: string, content: string): string {
    var c3 := IncludeStage(lower, content);
    if DefinitionMarkerFound(lower, content) then Splice(c3, IndexOf(c3, DefinitionsHere), DefinitionInclude(lower))
    else c3
  }

  method AddImportsToSwaggerConfig(modelName: string, content: string) returns (written: string)
    ensures written == SwaggerConfig(modelName, content)
  {
    var modelNameLowerCase := LowerFirst(modelName);
    var pathImports := PathImport(modelNameLowerCase);
    var defImports := DefinitionImport(modelNameLowerCase);
    var pathInclude := PathInclude(modelNameLowerCase);
    var defInclude := DefinitionInclude(modelNameLowerCase);
    var importsExist := Contains(content, modelNameLowerCase + "Paths");
    if importsExist {
      return content;
    }
    written := content;
    var containerPathIndex := IndexOf(written, PathImportsEnd);
    if containerPathIndex != -1 {
      written := Splice(written, containerPathIndex, pathImports);
    }
    var containerDefIndex := IndexOf(written, DefinitionImportsEnd);
    if containerDefIndex != -1 {
      written := Splice(written, containerDefIndex, defImports);
    }
    var containerPathInclude := IndexOf(written, PathsHere);
    if containerPathInclude != -1 {
      written := Splice(written, containerPathInclude, pathInclude);
    }
    var containerDefInclude := IndexOf(written, DefinitionsHere);
    if containerDefIndex != -1 {
      written := Splice(written, containerDefInclude, defInclude);
    }
  }

  /** The fourth splice as written: with the definition-import marker found
      and no definitions marker, the include lands before the text's last
      character. */
  lemma SwaggerIncludeBeforeLastCharacter(modelName: string, content: string)
    requires !SwaggerImportsExist(modelName, content)
    requires DefinitionMarkerFound(LowerFirst(modelName), content)
    requires !Contains(IncludeStage(LowerFirst(modelName), content), DefinitionsHere)
    ensures var lower := LowerFirst(modelName);
      var c3 := IncludeStage(lower, content);
      && |c3| > 0
      && SwaggerConfig(modelName, content) == c3[..|c3| - 1] + DefinitionInclude(lower) + c3[|c3| - 1..]
  {
    var lower := LowerFirst(modelName);
    var c1 := PathImportStage(lower, content);
    var c2 := InsertBefore(c1, DefinitionImportsEnd, DefinitionImport(lower));
    InsertBeforeMarker(c1, DefinitionImportsEnd, DefinitionImport(lower));
    InsertBeforeMarker(c2, PathsHere, PathInclude(lower));
    assert |IncludeStage(lower, content)| >= |c2| > 0;
  }

  /** The characters of the swagger markers the proofs below rely on. */
  lemma SwaggerMarkerChars()
    ensures DefinitionImportsEnd[0] == '/' && PathsHere[0] == '/' && DefinitionsHere[0] == '/'
    ensures '\'' !in DefinitionImportsEnd && '\'' !in PathsHere && '\'' !in DefinitionsHere
    ensures ',' !in DefinitionsHere
  {
    DefinitionImportsEndChars();
    PathsHereChars();
    DefinitionsHereChars();
  }

  lemma DefinitionImportsEndChars()
    ensures DefinitionImportsEnd[0] == '/' && '\'' !in DefinitionImportsEnd
  {
  }

  lemma PathsHereChars()
    ensures PathsHere[0] == '/' && '\'' !in PathsHere
  {
  }

  lemma DefinitionsHereChars()
    ensures DefinitionsHere[0] == '/' && '\'' !in DefinitionsHere && ',' !in DefinitionsHere
  {
  }

  /** A derived name without `/` names its paths without `/`. */
  lemma PathsNoSlash(lower: string)
    requires '/' !in lower
    ensures '/' !in lower + "Paths"
  {
  }

  /** The path import names the derived name's paths, followed by a
      quote. */
  lemma PathImportNames(lower: string) returns (j: nat)
    ensures var sub := lower + "Paths";
      && OccursAt(PathImport(lower), sub, j)
      && j + |sub| < |PathImport(lower)| && PathImport(lower)[j + |sub|] == '\''
  {
    var sub := lower + "Paths";
    var a := "import " + lower + "Paths from './paths/";
    var s := PathImport(lower);
    assert s == a + sub + "';\n  ";
    assert s[|a|..|a| + |sub|] == sub;
    j := |a|;
  }

  /** After the path import is spliced in, the text names the derived
      name's paths, followed by a quote. */
  lemma PathImportSpliced(lower: string, content: string) returns (j: nat)
    requires Contains(content, PathImportsEnd)
    ensures var sub := lower + "Paths";
      var c1 := InsertBefore(content, PathImportsEnd, PathImport(lower));
      OccursAt(c1, sub, j) && j + |sub| < |c1| && c1[j + |sub|] == '\''
  {
    var j0 := PathImportNames(lower);
    j := SplicedIn(content, PathImportsEnd, PathImport(lower), lower + "Paths", j0);
  }

  /** After the path include is spliced in, the text names the derived
      name's paths, followed by a comma. */
  lemma PathIncludeSpliced(lower: string, c2: string) returns (j: nat)
    requires Contains(c2, PathsHere)
    ensures var sub := lower + "Paths";
      var c3 := InsertBefore(c2, PathsHere, PathInclude(lower));
      OccursAt(c3, sub, j) && j + |sub| < |c3| && c3[j + |sub|] == ','
  {
    var sub := lower + "Paths";
    var s := PathInclude(lower);
    assert s == "..." + sub + ",\n  ";
    assert s[3..3 + |sub|] == sub;
    j := SplicedIn(c2, PathsHere, s, sub, 3);
  }

  /** The fourth splice keeps an occurrence of the derived name's paths
      that is followed by a character not in its marker: either it goes
      before the marker, or, as written, before the last character. */
  lemma FourthSpliceKeeps(lower: string, c3: string, j: nat, defFound: bool)
    requires '/' !in lower
    requires var sub := lower + "Paths";
      OccursAt(c3, sub, j) && j + |sub| < |c3| && c3[j + |sub|] !in DefinitionsHere
    ensures Contains(if defFound then Splice(c3, IndexOf(c3, DefinitionsHere), DefinitionInclude(lower)) else c3, lower + "Paths")
  {
    var sub := lower + "Paths";
    PathsNoSlash(lower);
    SwaggerMarkerChars();
    if defFound {
      var p := IndexOf(c3, DefinitionsHere);
      var at := SliceIndex(|c3|, p);
      if p != -1 {
        NoSplit(c3, sub, j, DefinitionsHere, p, 0);
      }
      SpliceKeeps(c3, sub, j, at, DefinitionInclude(lower));
      ContainsAt(Splice(c3, at, DefinitionInclude(lower)), sub, if at <= j then j + |DefinitionInclude(lower)| else j);
    } else {
      ContainsAt(c3, sub, j);
    }
  }

  /** The path import survives the definition import. */
  lemma PathImportKept(lower: string, content: string) returns (j: nat)
    requires Contains(content, PathImportsEnd) && '/' !in lower
    ensures var sub := lower + "Paths";
      var c2 := InsertBefore(PathImportStage(lower, content), DefinitionImportsEnd, DefinitionImport(lower));
      OccursAt(c2, sub, j) && j + |sub| < |c2| && c2[j + |sub|] == '\''
  {
    var j0 := PathImportNames(lower);
    PathsNoSlash(lower);
    SwaggerMarkerChars();
    j := SplicedThenKept(content, PathImportsEnd, PathImport(lower), lower + "Paths", j0,
                         DefinitionImportsEnd, DefinitionImport(lower));
    var c2 := InsertBefore(InsertBefore(content, PathImportsEnd, PathImport(lower)), DefinitionImportsEnd, DefinitionImport(lower));
    assert c2 == InsertBefore(PathImportStage(lower, content), DefinitionImportsEnd, DefinitionImport(lower));
    assert OccursAt(c2, lower + "Paths", j) && j + |lower + "Paths"| < |c2|;
    assert c2[j + |lower + "Paths"|] == PathImport(lower)[j0 + |lower + "Paths"|] == '\'';
  }

  /** The path include keeps an occurrence followed by a quote. */
  lemma IncludeKeepsQuoted(lower: string, c2: string, j2: nat) returns (j3: nat)
    requires '/' !in lower
    requires var sub := lower + "Paths";
      OccursAt(c2, sub, j2) && j2 + |sub| < |c2| && c2[j2 + |sub|] == '\''
    ensures var sub := lower + "Paths";
      var c3 := InsertBefore(c2, PathsHere, PathInclude(lower));
      OccursAt(c3, sub, j3) && j3 + |sub| < |c3| && c3[j3 + |sub|] !in DefinitionsHere
  {
    var sub := lower + "Paths";
    PathsNoSlash(lower);
    SwaggerMarkerChars();
    j3 := KeptPastMarker(c2, sub, j2, PathsHere, PathInclude(lower), 0);
  }

  /** With the path-import marker, the four splices leave the derived
      name's paths in the text. */
  lemma PathImportFound(lower: string, content: string)
    requires Contains(content, PathImportsEnd) && '/' !in lower
    ensures Contains(AllSpliced(lower, content), lower + "Paths")
  {
    var sub := lower + "Paths";
    var j2 := PathImportKept(lower, content);
    var c2 := InsertBefore(PathImportStage(lower, content), DefinitionImportsEnd, DefinitionImport(lower));
    var j3 := IncludeKeepsQuoted(lower, c2, j2);
    FourthSpliceKeeps(lower, IncludeStage(lower, content), j3, DefinitionMarkerFound(lower, content));
  }

  /** Once the path-import marker is found, a second run finds the path
      import and changes nothing, the fourth splice included. */
  lemma SwaggerIdempotentWithPathMarker(modelName: string, content: string)
    requires Contains(content, PathImportsEnd) && '/' !in modelName
    ensures SwaggerConfig(modelName, SwaggerConfig(modelName, content)) == SwaggerConfig(modelName, content)
  {
    LowerFirstKeepsOut(modelName, '/');
    PathImportFound(LowerFirst(modelName), content);
  }

  /** Once the paths marker is found, a second run finds the path include
      and changes nothing. */
  lemma SwaggerIdempotentWithPathsHere(modelName: string, content: string)
    requires !SwaggerImportsExist(modelName, content) ==>
      Contains(InsertBefore(PathImportStage(LowerFirst(modelName), content), DefinitionImportsEnd,
                            DefinitionImport(LowerFirst(modelName))), PathsHere)
    requires '/' !in modelName
    ensures SwaggerConfig(modelName, SwaggerConfig(modelName, content)) == SwaggerConfig(modelName, content)
  {
    LowerFirstKeepsOut(modelName, '/');
    if !SwaggerImportsExist(modelName, content) {
      PathsHereFound(LowerFirst(modelName), content);
    }
  }

  lemma PathsHereFound(lower: string, content: string)
    requires Contains(InsertBefore(PathImportStage(lower, content), DefinitionImportsEnd, DefinitionImport(lower)), PathsHere)
    requires '/' !in lower
    ensures Contains(AllSpliced(lower, content), lower + "Paths")
  {
    SwaggerMarkerChars();
    var c2 := InsertBefore(PathImportStage(lower, content), DefinitionImportsEnd, DefinitionImport(lower));
    var j3 := PathIncludeSpliced(lower, c2);
    FourthSpliceKeeps(lower, IncludeStage(lower, content), j3, DefinitionMarkerFound(lower, content));
  }
}
