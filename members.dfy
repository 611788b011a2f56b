/** parse_javadoc_body, parse_field_li and parse_method_li: one field, one
    constructor or one method of the page becomes a Java member with its
    documentation comment. */
module Members {
  import opened Wrappers
  import opened Failures
  import opened Text
  import opened Notes

  /** One `li` of the field details: the inner markup of its `div.block`, if
      it has one, and the raw texts of the three spans of its signature. */
  datatype FieldItem = FieldItem(
    body: Option<string>,
    modifiers: Option<string>,
    fieldType: Option<string>,
    name: Option<string>)

  /** One `li` of the constructor or method details: the inner markup of its
      `div.block`, the raw texts of the spans of its signature (a constructor
      has no return type, a member without arguments may have no parameter
      span) and the children of its `dl.notes`, if it has that list. */
  datatype MethodItem = MethodItem(
    body: Option<string>,
    modifiers: Option<string>,
    returnType: Option<string>,
    name: Option<string>,
    parameters: Option<string>,
    notes: Option<seq<Node>>)

  /** parse_javadoc_body: the main description with its line breaks removed,
      or nothing for a member that has none. */
  function DocBody(body: Option<string>): (r: string)
    ensures body.None? ==> r == ""
    ensures body.Some? ==> r == RemoveLinebreaks(body.value)
    ensures '\n' !in r && '\r' !in r
  {
    match body
    case None => ""
    case Some(markup) => RemoveLinebreaks(markup)
  }

  /** The text of one line of a comment: long whitespace runs collapsed,
      then line breaks removed. */
  function DocText(s: string): (r: string)
    ensures '\n' !in r && '\r' !in r
  {
    RemoveLinebreaks(RemoveManySpaces(s))
  }

  // ---------------------------------------------------------------------
  // Fields

  /** parse_field_li: a comment holding the description, then the modifiers,
      the type and the name joined by spaces and closed by `;`. Each of the
      three spans is required. */
  function ParseFieldLi(f: FieldItem): (r: Result<string, Error>)
    ensures r.Err? <==> f.modifiers.None? || f.fieldType.None? || f.name.None?
  {
    if f.modifiers.None? then Err(MissingSpan("modifiers"))
    else if f.fieldType.None? then Err(MissingSpan("return-type"))
    else if f.name.None? then Err(MissingSpan("element-name"))
    else
      var declaration := Strip(f.modifiers.value) + " " + Strip(f.fieldType.value) + " " + Strip(f.name.value) + ";";
      Ok("/**\n * " + DocBody(f.body) + "\n */\n" + declaration)
  }

  /** Read line by line, a field is the opening of a comment, the line
      holding the description, the close of the comment and the
      declaration. */
  lemma FieldLines(f: FieldItem)
    requires ParseFieldLi(f).Ok?
    requires '\n' !in Strip(f.modifiers.value) + Strip(f.fieldType.value) + Strip(f.name.value)
    ensures Lines(ParseFieldLi(f).value) ==
      ["/**", " * " + DocBody(f.body), " */",
       Strip(f.modifiers.value) + " " + Strip(f.fieldType.value) + " " + Strip(f.name.value) + ";"]
  {
    var declaration := Strip(f.modifiers.value) + " " + Strip(f.fieldType.value) + " " + Strip(f.name.value) + ";";
    assert '\n' !in declaration;
    FieldText(DocBody(f.body), declaration);
  }

  lemma FieldText(body: string, declaration: string)
    requires '\n' !in body && '\n' !in declaration
    ensures Lines("/**\n * " + body + "\n */\n" + declaration) == ["/**", " * " + body, " */", declaration]
  {
    var comment := ["/**", " * " + body, " */"];
    CommentOfThreeLines(body, declaration);
    LinesOfUnlines(comment, declaration);
    assert comment + [declaration] == ["/**", " * " + body, " */", declaration];
  }

  lemma CommentOfThreeLines(body: string, rest: string)
    ensures Unlines(["/**", " * " + body, " */"]) + rest == "/**\n * " + body + "\n */\n" + rest
  {
    var ls := ["/**", " * " + body, " */"];
    assert ls[1..][1..][1..] == [];
    calc {
      Unlines(ls);
      "/**" + "\n" + Unlines(ls[1..]);
      "/**" + "\n" + (" * " + body + "\n" + Unlines(ls[1..][1..]));
      "/**" + "\n" + (" * " + body + "\n" + (" */" + "\n" + ""));
    }
    assert "/**" + "\n" + (" * " + body + "\n" + (" */" + "\n" + "")) == "/**\n * " + body + "\n */\n";
  }

  // ---------------------------------------------------------------------
  // Constructors and methods: the signature

  /** The signature before any throws clause: the modifiers, the return
      type if there is one, the name, and the parameter list as the page
      shows it (no-break spaces and line breaks cleaned) or `()`. */
  function SignatureHead(modifiers: string, returnType: Option<string>, name: string, parameters: Option<string>): string {
    var withType := match returnType case Some(t) => modifiers + (" " + t) case None => modifiers;
    var withName := withType + (" " + name);
    match parameters
    case Some(p) => withName + RemoveLinebreaks(CleanCharacters(Strip(p)))
    case None => withName + "()"
  }

  /** What the throws loop appends for one entry: the letters it starts
      with and a comma, or nothing when it does not start with a letter. */
  function ThrowsPiece(entry: string): string {
    match MatchLetters(entry)
    case None => ""
    case Some(letters) => DocText(letters) + ", "
  }

  function ThrowsPieces(entries: seq<string>): string {
    if entries == [] then ""
    else ThrowsPieces(entries[..|entries| - 1]) + ThrowsPiece(entries[|entries| - 1])
  }

  lemma ThrowsPiecesStep(entries: seq<string>, i: nat)
    requires i < |entries|
    ensures ThrowsPieces(entries[..i + 1]) == ThrowsPieces(entries[..i]) + ThrowsPiece(entries[i])
  {
    assert entries[..i + 1][..i] == entries[..i];
  }

  /** The signature with its throws clause: ` throws `, the pieces, and the
      last two characters cut off. */
  function Signature(head: string, throws: seq<string>): string {
    if throws == [] then head
    else
      var s := head + " throws " + ThrowsPieces(throws);
      s[..|s| - 2]
  }

  /** The exception name of one throws entry, if it starts with a letter. */
  function NameOf(entry: string): seq<string> {
    match MatchLetters(entry)
    case None => []
    case Some(g) => [g]
  }

  /** The exception names: the leading letters of each throws entry that
      starts with a letter, in document order. */
  function ExceptionNames(entries: seq<string>): (names: seq<string>)
    ensures |names| <= |entries|
  {
    if entries == [] then [] else NameOf(entries[0]) + ExceptionNames(entries[1..])
  }

  /** When every entry starts with a letter, there is one name per entry,
      in the same order; when none does, there are no names. */
  lemma ExceptionNamesPerEntry(entries: seq<string>)
    ensures (forall i :: 0 <= i < |entries| ==> MatchLetters(entries[i]).Some?) ==>
      |ExceptionNames(entries)| == |entries| &&
      forall i :: 0 <= i < |entries| ==> ExceptionNames(entries)[i] == MatchLetters(entries[i]).value
    ensures (forall i :: 0 <= i < |entries| ==> MatchLetters(entries[i]).None?) ==> ExceptionNames(entries) == []
  {
    if forall i :: 0 <= i < |entries| ==> MatchLetters(entries[i]).Some? {
      ExceptionNamesAllMatch(entries);
    }
    if forall i :: 0 <= i < |entries| ==> MatchLetters(entries[i]).None? {
      ExceptionNamesNoneMatch(entries);
    }
  }

  lemma {:induction false} ExceptionNamesAllMatch(entries: seq<string>)
    requires forall i :: 0 <= i < |entries| ==> MatchLetters(entries[i]).Some?
    ensures |ExceptionNames(entries)| == |entries|
    ensures forall i :: 0 <= i < |entries| ==> ExceptionNames(entries)[i] == MatchLetters(entries[i]).value
  {
    if entries != [] {
      var rest := entries[1..];
      assert forall i :: 0 <= i < |rest| ==> rest[i] == entries[i + 1];
      ExceptionNamesAllMatch(rest);
      var names := ExceptionNames(entries);
      assert NameOf(entries[0]) == [MatchLetters(entries[0]).value];
      assert names == [MatchLetters(entries[0]).value] + ExceptionNames(rest);
      forall i | 0 <= i < |entries|
        ensures names[i] == MatchLetters(entries[i]).value
      {
        if i > 0 {
          assert names[i] == ExceptionNames(rest)[i - 1];
        }
      }
    }
  }

  lemma {:induction false} ExceptionNamesNoneMatch(entries: seq<string>)
    requires forall i :: 0 <= i < |entries| ==> MatchLetters(entries[i]).None?
    ensures ExceptionNames(entries) == []
  {
    if entries != [] {
      var rest := entries[1..];
      assert forall i :: 0 <= i < |rest| ==> rest[i] == entries[i + 1];
      ExceptionNamesNoneMatch(rest);
      assert NameOf(entries[0]) == [];
    }
  }

  lemma {:induction false} ExceptionNamesAppend(a: seq<string>, b: seq<string>)
    ensures ExceptionNames(a + b) == ExceptionNames(a) + ExceptionNames(b)
  {
    if a == [] {
      assert a + b == b;
    } else {
      assert (a + b)[0] == a[0];
      assert (a + b)[1..] == a[1..] + b;
      ExceptionNamesAppend(a[1..], b);
      var h := NameOf(a[0]);
      assert ExceptionNames(a + b) == h + (ExceptionNames(a[1..]) + ExceptionNames(b));
      assert h + (ExceptionNames(a[1..]) + ExceptionNames(b)) == (h + ExceptionNames(a[1..])) + ExceptionNames(b);
    }
  }

  /** Leading letters pass the comment-text cleaning unchanged. */
  lemma LettersAreClean(g: string)
    requires forall i :: 0 <= i < |g| ==> IsAsciiLetter(g[i])
    ensures DocText(g) == g
  {
    ManySpacesNoWs(g);
    assert '\n' !in g && '\r' !in g by {
      forall i | 0 <= i < |g| ensures g[i] != '\n' && g[i] != '\r' {
        assert IsAsciiLetter(g[i]);
      }
    }
    RemoveLinebreaksIdentity(g);
  }

  lemma {:induction false} ThrowsPiecesJoin(entries: seq<string>)
    ensures ThrowsPieces(entries) ==
      if ExceptionNames(entries) == [] then "" else Join(ExceptionNames(entries), ", ") + ", "
  {
    if entries != [] {
      var init := entries[..|entries| - 1];
      var last := entries[|entries| - 1];
      assert entries == init + [last];
      ThrowsPiecesJoin(init);
      ExceptionNamesAppend(init, [last]);
      assert [last][1..] == [];
      var names := ExceptionNames(init);
      assert ThrowsPieces(entries) == ThrowsPieces(init) + ThrowsPiece(last);
      match MatchLetters(last)
      case None =>
        assert ExceptionNames([last]) == NameOf(last) + ExceptionNames([]);
        assert ExceptionNames([last]) == [];
        assert ExceptionNames(entries) == names;
      case Some(g) =>
        assert ExceptionNames([last]) == NameOf(last) + ExceptionNames([]);
        assert ExceptionNames([last]) == [g];
        assert ExceptionNames(entries) == names + [g];
        LettersAreClean(g);
        assert ThrowsPiece(last) == g + ", ";
        if names != [] {
          JoinSnoc(names, g, ", ");
          ConcatAssoc(Join(names, ", ") + ", ", g, ", ");
        } else {
          assert names + [g] == [g];
        }
    }
  }

  /** The throws clause: with at least one throws entry, the signature is
      followed by ` throws ` and the exception names joined by `, `, in
      document order, without removing repeats or sorting. When no entry
      starts with a letter the cut of the last two characters still happens
      and leaves ` throw`. */
  lemma ThrowsClause(head: string, throws: seq<string>)
    requires throws != []
    ensures var names := ExceptionNames(throws);
      Signature(head, throws) == if names == [] then head + " throw" else head + " throws " + Join(names, ", ")
  {
    var names := ExceptionNames(throws);
    ThrowsPiecesJoin(throws);
    if names == [] {
      CutEnd(head, " throws ", 2);
      assert " throws "[..6] == " throw";
    } else {
      var joined := Join(names, ", ");
      ConcatAssoc(head + " throws ", joined, ", ");
      CutEnd(head + " throws " + joined, ", ", 2);
      assert ", "[..0] == "";
      assert head + " throws " + joined + "" == head + " throws " + joined;
    }
  }

  // ---------------------------------------------------------------------
  // Constructors and methods: the comment and the body

  /** The comment lines for a group of notes, one per entry, each `lead`
      followed by the cleaned entry and a line break. */
  function TagLines(lead: string, entries: seq<string>): string {
    if entries == [] then ""
    else TagLines(lead, entries[..|entries| - 1]) + (lead + DocText(entries[|entries| - 1]) + "\n")
  }

  /** The documentation comment: the description; then, each only when
      present and each after a spacer line, the parameters, the return
      description and the exceptions; then the close of the comment and,
      for an overriding method, `@Override`. */
  function DocComment(body: string, n: DocNotes): string {
    var opening := "/**\n * " + body + "\n";
    var withParameters :=
      if n.parameters != [] then opening + " * \n" + TagLines(" * @param ", n.parameters) else opening;
    var withReturn :=
      if n.returnDoc != "" then withParameters + (" * \n * @return " + DocText(n.returnDoc) + "\n") else withParameters;
    var withThrows :=
      if n.throws != [] then withReturn + " * \n" + TagLines(" * @throws ", n.throws) else withReturn;
    withThrows + " */\n" + (if n.overrides then "@Override\n" else "")
  }

  /** The Java primitive type names. */
  predicate IsPrimitive(t: string) {
    t in {"byte", "short", "int", "long", "float", "double", "char", "boolean"}
  }

  /** The value of the placeholder `return`: `0`, `0L`, `0.0f`, `0.0d` for
      the numeric types, the NUL character itself for `char`, `false` for
      `boolean`, and `null` exactly for the types that are not primitive. */
  function DefaultLiteral(t: string): (lit: string)
    ensures lit == "null" <==> !IsPrimitive(t)
    ensures lit != [] && '\n' !in lit
  {
    if t in {"byte", "int", "short"} then "0"
    else if t == "long" then "0L"
    else if t == "float" then "0.0f"
    else if t == "double" then "0.0d"
    else if t == "char" then "\U{0}"
    else if t == "boolean" then "false"
    else "null"
  }

  /** Only a member with a return type other than `void` gets a `return`. */
  predicate ReturnsValue(returnType: Option<string>) {
    returnType.Some? && returnType.value != "void"
  }

  /** The notes of a member, or empty notes when it has no notes list. */
  function MethodNotes(m: MethodItem): Result<DocNotes, Error> {
    match m.notes
    case None => Ok(DocNotes([], [], "", false))
    case Some(dl) => NotesOf(dl)
  }

  function StrippedReturnType(m: MethodItem): Option<string> {
    match m.returnType
    case None => None
    case Some(t) => Some(Strip(t))
  }

  /** The default `return` of the placeholder body, with its line break, for
      a member that returns a value; nothing otherwise. */
  function ReturnText(returnType: Option<string>): string {
    if ReturnsValue(returnType) then "    return " + DefaultLiteral(returnType.value) + "; // default return statement\n"
    else ""
  }

  /** The comment, the signature and the placeholder body with its default
      `return`, if any. */
  function StubOf(comment: string, signature: string, returnType: Option<string>): string {
    comment + (signature + " {\n    // TODO: Implement\n\n") + ReturnText(returnType) + "  }"
  }

  /** What parse_method_li yields for one constructor or method. It fails
      exactly when the modifiers or the name are missing or the notes list
      has a `Returns:` label without a value. */
  function MethodStub(m: MethodItem): (r: Result<string, Error>)
    ensures r.Err? <==> m.modifiers.None? || m.name.None? || MethodNotes(m).Err?
  {
    if m.modifiers.None? then Err(MissingSpan("modifiers"))
    else if m.name.None? then Err(MissingSpan("element-name"))
    else
      match MethodNotes(m)
      case Err(e) => Err(e)
      case Ok(n) =>
        var rt := StrippedReturnType(m);
        var head := SignatureHead(Strip(m.modifiers.value), rt, Strip(m.name.value), m.parameters);
        Ok(StubOf(DocComment(DocBody(m.body), n), Signature(head, n.throws), rt))
  }

  /** The throws loop of parse_method_li: ` throws `, then for each entry
      its leading letters and a comma, then the cut of two characters. */
  method AppendThrowsClause(head: string, throws: seq<string>) returns (signature: string)
    requires throws != []
    ensures signature == Signature(head, throws)
  {
    signature := head + " throws ";
    for i := 0 to |throws|
      invariant signature == head + " throws " + ThrowsPieces(throws[..i])
    {
      var exceptionName := MatchLetters(throws[i]);
      ghost var before := signature;
      if exceptionName.Some? {
        signature := signature + DocText(exceptionName.value) + ", ";
      }
      ThrowsPieceAppended(head + " throws ", throws, i, before, signature);
    }
    assert throws[..|throws|] == throws;
    signature := signature[..|signature| - 2];
  }

  /** One turn of the throws loop adds the piece of one entry. */
  lemma ThrowsPieceAppended(prefix: string, throws: seq<string>, i: nat, before: string, after: string)
    requires i < |throws|
    requires before == prefix + ThrowsPieces(throws[..i])
    requires after == match MatchLetters(throws[i])
      case None => before
      case Some(g) => before + DocText(g) + ", "
    ensures after == prefix + ThrowsPieces(throws[..i + 1])
  {
    ThrowsPiecesStep(throws, i);
    ConcatAssoc(prefix, ThrowsPieces(throws[..i]), ThrowsPiece(throws[i]));
    match MatchLetters(throws[i])
    case None =>
    case Some(g) => ConcatAssoc(before, DocText(g), ", ");
  }

  /** The loops of parse_method_li that add one comment line per parameter
      or per exception. */
  method AppendTagLines(text: string, lead: string, entries: seq<string>) returns (out: string)
    ensures out == text + TagLines(lead, entries)
  {
    out := text;
    for i := 0 to |entries|
      invariant out == text + TagLines(lead, entries[..i])
    {
      assert entries[..i + 1][..i] == entries[..i];
      ConcatAssoc(text, TagLines(lead, entries[..i]), lead + DocText(entries[i]) + "\n");
      out := out + (lead + DocText(entries[i]) + "\n");
    }
    assert entries[..|entries|] == entries;
  }

  /** The comment part of parse_method_li: the description line, then the
      groups of tag lines, each after a spacer, the close of the comment
      and the `@Override` line. */
  method WriteDocComment(body: string, notes: DocNotes) returns (out: string)
    ensures out == DocComment(body, notes)
  {
    out := "/**\n * " + body + "\n";
    if notes.parameters != [] {
      out := AppendTagLines(out + " * \n", " * @param ", notes.parameters);
    }
    if notes.returnDoc != "" {
      out := out + (" * \n * @return " + DocText(notes.returnDoc) + "\n");
    }
    if notes.throws != [] {
      out := AppendTagLines(out + " * \n", " * @throws ", notes.throws);
    }
    out := out + " */\n";
    out := out + (if notes.overrides then "@Override\n" else "");
  }

  /** parse_method_li as the converter runs it: the signature and the
      comment grow piece by piece, the throws clause and the groups of
      comment lines in loops over the notes. */
  method ParseMethodLi(m: MethodItem) returns (r: Result<string, Error>)
    ensures r == MethodStub(m)
  {
    if m.modifiers.None? {
      return Err(MissingSpan("modifiers"));
    }
    var signature := Strip(m.modifiers.value);
    var returnType: Option<string> := None;
    if m.returnType.Some? {
      returnType := Some(Strip(m.returnType.value));
      signature := signature + (" " + returnType.value);
    }
    assert returnType == StrippedReturnType(m);
    if m.name.None? {
      return Err(MissingSpan("element-name"));
    }
    signature := signature + (" " + Strip(m.name.value));
    if m.parameters.Some? {
      signature := signature + RemoveLinebreaks(CleanCharacters(Strip(m.parameters.value)));
    } else {
      signature := signature + "()";
    }
    ghost var head := signature;
    assert head == SignatureHead(Strip(m.modifiers.value), returnType, Strip(m.name.value), m.parameters);

    var notes := DocNotes([], [], "", false);
    if m.notes.Some? {
      var parsed := ParseMethodNotesDl(m.notes.value);
      if parsed.Err? {
        return Err(parsed.error);
      }
      notes := parsed.value;
    }
    assert MethodNotes(m) == Ok(notes);

    if notes.throws != [] {
      signature := AppendThrowsClause(signature, notes.throws);
    }
    assert signature == Signature(head, notes.throws);

    var comment := WriteDocComment(DocBody(m.body), notes);
    var out := AppendBody(comment, signature, returnType);
    r := Ok(out);
  }

  /** The end of parse_method_li: the declaration, the TODO line, the
      default `return` for a member that returns a value, and the closing
      brace. */
  method AppendBody(text: string, signature: string, returnType: Option<string>) returns (out: string)
    ensures out == StubOf(text, signature, returnType)
  {
    out := text + (signature + " {\n    // TODO: Implement\n\n");
    ghost var declared := out;
    if returnType.Some? && returnType.value != "void" {
      out := out + "    return ";
      out := out + DefaultLiteral(returnType.value);
      out := out + "; // default return statement\n";
      ReturnAppended(declared, DefaultLiteral(returnType.value));
    }
    out := out + "  }";
  }

  lemma ReturnAppended(before: string, lit: string)
    ensures before + "    return " + lit + "; // default return statement\n"
      == before + ("    return " + lit + "; // default return statement\n")
  {
    var a, b := "    return ", "; // default return statement\n";
    ConcatAssoc(before + a, lit, b);
    ConcatAssoc(before, a, lit + b);
    ConcatAssoc(a, lit, b);
  }

  // ---------------------------------------------------------------------
  // The stub read line by line

  /** One comment line per entry: `lead` and the cleaned entry. */
  function TagLineSeq(lead: string, entries: seq<string>): (ls: seq<string>)
    ensures |ls| == |entries|
    ensures forall i :: 0 <= i < |entries| ==> ls[i] == lead + DocText(entries[i])
  {
    seq(|entries|, i requires 0 <= i < |entries| => lead + DocText(entries[i]))
  }

  lemma TagLineSeqSnoc(lead: string, entries: seq<string>)
    requires entries != []
    ensures TagLineSeq(lead, entries) ==
      TagLineSeq(lead, entries[..|entries| - 1]) + [lead + DocText(entries[|entries| - 1])]
  {
  }

  /** The tag lines written by a loop are one line per entry. */
  lemma {:induction false} TagLinesUnlines(lead: string, entries: seq<string>)
    ensures TagLines(lead, entries) == Unlines(TagLineSeq(lead, entries))
  {
    if entries != [] {
      var init := entries[..|entries| - 1];
      var line := lead + DocText(entries[|entries| - 1]);
      TagLinesUnlines(lead, init);
      TagLineSeqSnoc(lead, entries);
      UnlinesAppend(TagLineSeq(lead, init), [line]);
      UnlinesSingle(line);
    }
  }

  /** The comment lines of the parameters, the return description and the
      exceptions: each group after a spacer line ` * `, nothing when empty. */
  function ParameterLines(n: DocNotes): seq<string> {
    if n.parameters != [] then [" * "] + TagLineSeq(" * @param ", n.parameters) else []
  }

  function ReturnLines(n: DocNotes): seq<string> {
    if n.returnDoc != "" then [" * ", " * @return " + DocText(n.returnDoc)] else []
  }

  function ThrowsLines(n: DocNotes): seq<string> {
    if n.throws != [] then [" * "] + TagLineSeq(" * @throws ", n.throws) else []
  }

  /** The documentation comment of a constructor or method as a list of
      lines: the opening, the description, the groups, the close and the
      `@Override` line of an overriding method. */
  function DocLines(body: string, n: DocNotes): seq<string> {
    ["/**", " * " + body] + ParameterLines(n) + ReturnLines(n) + ThrowsLines(n) + [" */"]
    + (if n.overrides then ["@Override"] else [])
  }

  lemma UnlinesSingle(l: string)
    ensures Unlines([l]) == l + "\n"
  {
    UnlinesCons(l, []);
  }

  lemma OpeningText(body: string)
    ensures Unlines(["/**", " * " + body]) == "/**\n * " + body + "\n"
  {
    assert ["/**", " * " + body] == ["/**"] + [" * " + body];
    UnlinesCons("/**", [" * " + body]);
    UnlinesSingle(" * " + body);
  }

  lemma TagGroupText(lead: string, entries: seq<string>)
    ensures Unlines([" * "] + TagLineSeq(lead, entries)) == " * \n" + TagLines(lead, entries)
  {
    UnlinesCons(" * ", TagLineSeq(lead, entries));
    TagLinesUnlines(lead, entries);
  }

  lemma ReturnGroupText(n: DocNotes)
    ensures Unlines(ReturnLines(n)) == if n.returnDoc != "" then " * \n * @return " + DocText(n.returnDoc) + "\n" else ""
  {
    if n.returnDoc != "" {
      assert ReturnLines(n) == [" * ", " * @return " + DocText(n.returnDoc)];
      ReturnTagText(DocText(n.returnDoc));
    }
  }

  lemma ReturnTagText(doc: string)
    ensures Unlines([" * ", " * @return " + doc]) == " * \n * @return " + doc + "\n"
  {
    var line := " * @return " + doc;
    assert " * \n * @return " == " * \n" + " * @return ";
    assert [" * ", line] == [" * "] + [line];
    UnlinesCons(" * ", [line]);
    UnlinesSingle(line);
    ConcatAssoc(" * \n", " * @return ", doc);
    ConcatAssoc(" * \n", line, "\n");
  }

  lemma DocLinesSplit(body: string, n: DocNotes)
    ensures Unlines(DocLines(body, n)) ==
      Unlines(["/**", " * " + body]) + Unlines(ParameterLines(n)) + Unlines(ReturnLines(n))
      + Unlines(ThrowsLines(n)) + Unlines([" */"]) + Unlines(if n.overrides then ["@Override"] else [])
  {
    var a := ["/**", " * " + body];
    var p := ParameterLines(n);
    var r := ReturnLines(n);
    var t := ThrowsLines(n);
    UnlinesAppend(a + p + r + t + [" */"], if n.overrides then ["@Override"] else []);
    UnlinesAppend(a + p + r + t, [" */"]);
    UnlinesAppend(a + p + r, t);
    UnlinesAppend(a + p, r);
    UnlinesAppend(a, p);
  }

  lemma DocLinesText(body: string, n: DocNotes)
    ensures Unlines(DocLines(body, n)) ==
      "/**\n * " + body + "\n" + Unlines(ParameterLines(n)) + Unlines(ReturnLines(n))
      + Unlines(ThrowsLines(n)) + " */\n" + (if n.overrides then "@Override\n" else "")
  {
    DocLinesSplit(body, n);
    OpeningText(body);
    UnlinesSingle(" */");
    UnlinesSingle("@Override");
    assert Unlines(if n.overrides then ["@Override"] else []) == (if n.overrides then "@Override\n" else "");
  }

  lemma ParameterGroupText(opening: string, n: DocNotes)
    ensures (if n.parameters != [] then opening + " * \n" + TagLines(" * @param ", n.parameters) else opening)
      == opening + Unlines(ParameterLines(n))
  {
    if n.parameters != [] {
      TagGroupText(" * @param ", n.parameters);
      ConcatAssoc(opening, " * \n", TagLines(" * @param ", n.parameters));
    }
  }

  lemma ThrowsGroupText(text: string, n: DocNotes)
    ensures (if n.throws != [] then text + " * \n" + TagLines(" * @throws ", n.throws) else text)
      == text + Unlines(ThrowsLines(n))
  {
    if n.throws != [] {
      TagGroupText(" * @throws ", n.throws);
      ConcatAssoc(text, " * \n", TagLines(" * @throws ", n.throws));
    }
  }

  /** The comment the converter writes is the comment's lines, each
      followed by a line break. */
  lemma DocCommentLines(body: string, n: DocNotes)
    ensures DocComment(body, n) == Unlines(DocLines(body, n))
  {
    var opening := "/**\n * " + body + "\n";
    var withParameters :=
      if n.parameters != [] then opening + " * \n" + TagLines(" * @param ", n.parameters) else opening;
    ParameterGroupText(opening, n);
    var withReturn :=
      if n.returnDoc != "" then withParameters + (" * \n * @return " + DocText(n.returnDoc) + "\n") else withParameters;
    ReturnGroupText(n);
    assert withReturn == withParameters + Unlines(ReturnLines(n));
    ThrowsGroupText(withReturn, n);
    DocLinesText(body, n);
  }

  /** The `return` line of the placeholder body. */
  function ReturnLine(t: string): string {
    "    return " + DefaultLiteral(t) + "; // default return statement"
  }

  /** The declaration line and the placeholder body before its closing
      brace: a TODO line, an empty line and, for a member that returns a
      value, the default `return`. */
  function BodyLines(signature: string, returnType: Option<string>): seq<string> {
    [signature + " {", "    // TODO: Implement", ""]
    + (if ReturnsValue(returnType) then [ReturnLine(returnType.value)] else [])
  }

  lemma BodyText(signature: string, returnType: Option<string>)
    ensures Unlines(BodyLines(signature, returnType)) ==
      signature + " {\n    // TODO: Implement\n\n" + ReturnText(returnType)
  {
    var opening := [signature + " {", "    // TODO: Implement", ""];
    var ret := if ReturnsValue(returnType) then [ReturnLine(returnType.value)] else [];
    UnlinesAppend(opening, ret);
    OpeningBodyText(signature);
    if ReturnsValue(returnType) {
      UnlinesSingle(ReturnLine(returnType.value));
      ReturnLineBreak(DefaultLiteral(returnType.value));
    }
  }

  lemma ReturnLineBreak(lit: string)
    ensures "    return " + lit + "; // default return statement" + "\n"
      == "    return " + lit + "; // default return statement\n"
  {
    var a, b := "    return ", "; // default return statement";
    ConcatAssoc(a + lit, b, "\n");
    assert b + "\n" == "; // default return statement\n";
  }

  lemma OpeningBodyText(signature: string)
    ensures Unlines([signature + " {", "    // TODO: Implement", ""]) == signature + " {\n    // TODO: Implement\n\n"
  {
    var todo := "    // TODO: Implement";
    UnlinesThree(signature + " {", todo, "");
    var open := " {" + "\n" + todo + "\n" + "" + "\n";
    assert open == " {\n    // TODO: Implement\n\n";
    assert signature + " {" + "\n" + todo + "\n" + "" + "\n" == signature + open by {
      ConcatAssoc(signature, " {", "\n");
      ConcatAssoc(signature, " {" + "\n", todo);
      ConcatAssoc(signature, " {" + "\n" + todo, "\n");
      ConcatAssoc(signature, " {" + "\n" + todo + "\n", "");
      ConcatAssoc(signature, " {" + "\n" + todo + "\n" + "", "\n");
    }
  }

  lemma UnlinesThree(a: string, b: string, c: string)
    ensures Unlines([a, b, c]) == a + "\n" + b + "\n" + c + "\n"
  {
    assert [a, b, c] == [a] + [b, c];
    assert [b, c] == [b] + [c];
    UnlinesCons(a, [b, c]);
    UnlinesCons(b, [c]);
    UnlinesSingle(c);
  }

  /** The stub with its placeholder body is its lines, each followed by a
      line break, and the closing brace of the body. */
  lemma StubOfLines(body: string, n: DocNotes, signature: string, returnType: Option<string>)
    ensures StubOf(DocComment(body, n), signature, returnType) ==
      Unlines(DocLines(body, n) + BodyLines(signature, returnType)) + "  }"
  {
    var declaration := signature + " {\n    // TODO: Implement\n\n";
    DocCommentLines(body, n);
    BodyText(signature, returnType);
    UnlinesAppend(DocLines(body, n), BodyLines(signature, returnType));
    ConcatAssoc(DocComment(body, n), declaration, ReturnText(returnType));
  }

  lemma {:induction false} ThrowsPiecesNoBreak(entries: seq<string>)
    ensures '\n' !in ThrowsPieces(entries)
  {
    if entries != [] {
      ThrowsPiecesNoBreak(entries[..|entries| - 1]);
    }
  }

  lemma HeadNoBreak(modifiers: string, returnType: Option<string>, name: string, parameters: Option<string>)
    requires '\n' !in modifiers && '\n' !in name
    requires returnType.Some? ==> '\n' !in returnType.value
    ensures '\n' !in SignatureHead(modifiers, returnType, name, parameters)
  {
  }

  lemma SignatureNoBreak(head: string, throws: seq<string>)
    requires '\n' !in head
    ensures '\n' !in Signature(head, throws)
  {
    if throws != [] {
      var s := head + " throws " + ThrowsPieces(throws);
      ThrowsPiecesNoBreak(throws);
      assert '\n' !in " throws ";
      AbsentFromConcat(head, " throws ", '\n');
      AbsentFromConcat(head + " throws ", ThrowsPieces(throws), '\n');
      AbsentFromPrefix(s, |s| - 2, '\n');
    }
  }

  /** No line of `ls` holds a line break. */
  ghost predicate NoBreaks(ls: seq<string>) {
    forall i :: 0 <= i < |ls| ==> '\n' !in ls[i]
  }

  lemma NoBreaksAppend(a: seq<string>, b: seq<string>)
    requires NoBreaks(a) && NoBreaks(b)
    ensures NoBreaks(a + b)
  {
    forall i | 0 <= i < |a + b|
      ensures '\n' !in (a + b)[i]
    {
      if i >= |a| {
        assert (a + b)[i] == b[i - |a|];
      }
    }
  }

  lemma TagLineSeqNoBreak(lead: string, entries: seq<string>)
    requires '\n' !in lead
    ensures NoBreaks(TagLineSeq(lead, entries))
  {
    var ls := TagLineSeq(lead, entries);
    forall i | 0 <= i < |ls|
      ensures '\n' !in ls[i]
    {
      AbsentFromConcat(lead, DocText(entries[i]), '\n');
    }
  }

  lemma TagGroupNoBreak(lead: string, entries: seq<string>)
    requires '\n' !in lead
    ensures NoBreaks([" * "] + TagLineSeq(lead, entries))
  {
    TagLineSeqNoBreak(lead, entries);
    NoBreaksAppend([" * "], TagLineSeq(lead, entries));
  }

  lemma GroupsNoBreak(n: DocNotes)
    ensures NoBreaks(ParameterLines(n)) && NoBreaks(ReturnLines(n)) && NoBreaks(ThrowsLines(n))
  {
    if n.parameters != [] {
      assert '\n' !in " * @param ";
      TagGroupNoBreak(" * @param ", n.parameters);
    }
    if n.returnDoc != "" {
      assert '\n' !in " * @return ";
      AbsentFromConcat(" * @return ", DocText(n.returnDoc), '\n');
    }
    if n.throws != [] {
      assert '\n' !in " * @throws ";
      TagGroupNoBreak(" * @throws ", n.throws);
    }
  }

  lemma FixedLinesNoBreak(body: string, overrides: bool)
    requires '\n' !in body
    ensures NoBreaks(["/**", " * " + body]) && NoBreaks([" */"])
    ensures NoBreaks(if overrides then ["@Override"] else [])
  {
    AbsentFromConcat(" * ", body, '\n');
  }

  lemma DocLinesNoBreak(body: string, n: DocNotes)
    requires '\n' !in body
    ensures NoBreaks(DocLines(body, n))
  {
    var a := ["/**", " * " + body];
    var p := ParameterLines(n);
    var r := ReturnLines(n);
    var t := ThrowsLines(n);
    var o := if n.overrides then ["@Override"] else [];
    GroupsNoBreak(n);
    FixedLinesNoBreak(body, n.overrides);
    NoBreaksAppend(a, p);
    NoBreaksAppend(a + p, r);
    NoBreaksAppend(a + p + r, t);
    NoBreaksAppend(a + p + r + t, [" */"]);
    NoBreaksAppend(a + p + r + t + [" */"], o);
    assert DocLines(body, n) == a + p + r + t + [" */"] + o;
  }

  /** The default `return` line is one line. */
  lemma ReturnLineNoBreak(t: string)
    ensures '\n' !in ReturnLine(t)
  {
    assert '\n' !in "    return ";
    assert '\n' !in "; // default return statement";
    AbsentFromConcat("    return ", DefaultLiteral(t), '\n');
    AbsentFromConcat("    return " + DefaultLiteral(t), "; // default return statement", '\n');
  }

  lemma BodyLinesNoBreak(signature: string, returnType: Option<string>)
    requires '\n' !in signature
    ensures NoBreaks(BodyLines(signature, returnType))
  {
    assert '\n' !in " {";
    assert '\n' !in "    // TODO: Implement";
    AbsentFromConcat(signature, " {", '\n');
    var ret := if ReturnsValue(returnType) then [ReturnLine(returnType.value)] else [];
    if ReturnsValue(returnType) {
      ReturnLineNoBreak(returnType.value);
    }
    NoBreaksAppend([signature + " {", "    // TODO: Implement", ""], ret);
  }

  lemma StubOfLinesSplit(body: string, n: DocNotes, signature: string, returnType: Option<string>)
    requires '\n' !in body && '\n' !in signature
    ensures Lines(StubOf(DocComment(body, n), signature, returnType)) ==
      DocLines(body, n) + BodyLines(signature, returnType) + ["  }"]
  {
    var doc := DocLines(body, n);
    var rest := BodyLines(signature, returnType);
    DocLinesNoBreak(body, n);
    BodyLinesNoBreak(signature, returnType);
    NoBreaksAppend(doc, rest);
    StubOfLines(body, n, signature, returnType);
    LinesOfUnlines(doc + rest, "  }");
  }

  /** Read line by line, a constructor or method stub is its comment lines,
      the signature line ending in ` {`, the TODO line, an empty line, the
      default `return` line for a member that returns a value and the
      closing brace. */
  lemma MethodStubLines(m: MethodItem)
    requires MethodStub(m).Ok?
    requires '\n' !in Strip(m.modifiers.value) + Strip(m.name.value)
    requires m.returnType.Some? ==> '\n' !in Strip(m.returnType.value)
    ensures var n := MethodNotes(m).value;
      var rt := StrippedReturnType(m);
      var head := SignatureHead(Strip(m.modifiers.value), rt, Strip(m.name.value), m.parameters);
      Lines(MethodStub(m).value) == DocLines(DocBody(m.body), n) + BodyLines(Signature(head, n.throws), rt) + ["  }"]
  {
    var n := MethodNotes(m).value;
    var rt := StrippedReturnType(m);
    var head := SignatureHead(Strip(m.modifiers.value), rt, Strip(m.name.value), m.parameters);
    HeadNoBreak(Strip(m.modifiers.value), rt, Strip(m.name.value), m.parameters);
    SignatureNoBreak(head, n.throws);
    StubOfLinesSplit(DocBody(m.body), n, Signature(head, n.throws), rt);
  }
}
