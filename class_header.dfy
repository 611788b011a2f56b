/** parse_class: the comment and the declaration line that open the stub. */
module ClassHeader {
  import opened Wrappers
  import opened Failures
  import opened Text
  import opened Members

  /** The class description section of the page: the inner markup of its
      `div.block`, if it has one, and the raw texts of the three spans of
      its type signature. */
  datatype ClassItem = ClassItem(
    body: Option<string>,
    modifiers: Option<string>,
    name: Option<string>,
    extendsImplements: Option<string>)

  const ExtendsObject: string := "extends Object"

  /** The declaration of the class, from its stripped modifiers, name and
      extends/implements text. The clause is kept only when it mentions
      `extends Object`, and then with every `extends Object` removed and the
      rest stripped; any other clause is dropped. */
  function ClassSignature(modifiers: string, name: string, implements: string): string {
    var signature := modifiers + " " + name;
    if Contains(implements, ExtendsObject) then signature + (" " + Strip(Replace(implements, ExtendsObject, "")))
    else signature
  }

  /** What parse_class yields. It fails when the page has no class
      description section or its signature lacks one of its three spans,
      in the order the converter looks them up. */
  function ParseClass(c: Option<ClassItem>): (r: Result<string, Error>)
    ensures r.Err? <==>
      c.None? || c.value.modifiers.None? || c.value.name.None? || c.value.extendsImplements.None?
    ensures c.None? ==> r == Err(MissingClassDescription)
  {
    if c.None? then Err(MissingClassDescription)
    else if c.value.modifiers.None? then Err(MissingSpan("modifiers"))
    else if c.value.name.None? then Err(MissingSpan("element-name type-name-label"))
    else if c.value.extendsImplements.None? then Err(MissingSpan("extends-implements"))
    else
      var signature := ClassSignature(Strip(c.value.modifiers.value), Strip(c.value.name.value), Strip(c.value.extendsImplements.value));
      Ok("/**\n * " + DocBody(c.value.body) + "\n */\n" + signature + " {\n\n")
  }

  /** The header opens with the class comment. */
  lemma HeaderStart(c: Option<ClassItem>)
    requires ParseClass(c).Ok?
    ensures |ParseClass(c).value| >= 7 && ParseClass(c).value[..7] == "/**\n * "
  {
    var v := c.value;
    var signature := ClassSignature(Strip(v.modifiers.value), Strip(v.name.value), Strip(v.extendsImplements.value));
    var rest := DocBody(v.body) + "\n */\n" + signature + " {\n\n";
    assert ParseClass(c).value == "/**\n * " + rest by {
      ConcatAssoc("/**\n * ", DocBody(v.body), "\n */\n");
      ConcatAssoc("/**\n * ", DocBody(v.body) + "\n */\n", signature);
      ConcatAssoc("/**\n * ", DocBody(v.body) + "\n */\n" + signature, " {\n\n");
    }
  }

  /** Without `extends Object` in the clause, the declaration is the
      modifiers and the name alone: an `implements` or `extends` of any
      other type is not carried over. */
  lemma SignatureWithoutExtendsObject(modifiers: string, name: string, implements: string)
    requires !Contains(implements, ExtendsObject)
    ensures ClassSignature(modifiers, name, implements) == modifiers + " " + name
  {
  }

  lemma ContainsPrefix(pat: string, rest: string)
    ensures Contains(pat + rest, pat)
  {
    assert (pat + rest)[..|pat|] == pat;
  }

  lemma ReplaceAtFront(pat: string, rest: string)
    requires pat != [] && !Contains(rest, pat)
    ensures Replace(pat + rest, pat, "") == rest
  {
    var s := pat + rest;
    assert s[..|pat|] == pat;
    assert s[|pat|..] == rest;
  }

  /** A clause that starts with `extends Object` keeps what follows it,
      stripped, after a space. For exactly `extends Object` this leaves a
      trailing space; for `extends ObjectOutputStream` it leaves
      `OutputStream`, the name cut short. */
  lemma SignatureWithExtendsObject(modifiers: string, name: string, rest: string)
    requires !Contains(rest, ExtendsObject)
    ensures ClassSignature(modifiers, name, ExtendsObject + rest) == modifiers + " " + name + (" " + Strip(rest))
  {
    ContainsPrefix(ExtendsObject, rest);
    ReplaceAtFront(ExtendsObject, rest);
  }

  lemma ShortNoExtendsObject(s: string)
    requires |s| < |ExtendsObject|
    ensures !Contains(s, ExtendsObject)
  {
  }

  /** An exact `extends Object` leaves a space before the brace. */
  lemma ExactExtendsObject(modifiers: string, name: string)
    ensures ClassSignature(modifiers, name, "extends Object") == modifiers + " " + name + " "
  {
    ShortNoExtendsObject("");
    assert ExtendsObject + "" == "extends Object";
    SignatureWithExtendsObject(modifiers, name, "");
    StripIdentity("");
  }

  /** A superclass whose name starts with `Object` loses that part. */
  lemma ObjectPrefixedSuperclass(modifiers: string, name: string)
    ensures ClassSignature(modifiers, name, "extends ObjectOutputStream") == modifiers + " " + name + " OutputStream"
  {
    var rest := "OutputStream";
    assert ExtendsObject + rest == "extends ObjectOutputStream";
    assert " " + rest == " OutputStream";
    StripIdentity(rest);
    ShortNoExtendsObject(rest);
    SignatureWithExtendsObject(modifiers, name, rest);
  }

  /** Another superclass and the interfaces are dropped together. */
  lemma OtherSuperclassDropped(modifiers: string, name: string)
    ensures ClassSignature(modifiers, name, "extends Node implements Comparable") == modifiers + " " + name
  {
    assert 'O' in ExtendsObject && 'O' !in "extends Node implements Comparable";
    MissingCharNotContained("extends Node implements Comparable", ExtendsObject, 'O');
  }

  /** Read line by line, the header is the opening of a comment, the
      description line, the close of the comment, the declaration followed
      by ` {`, and two empty lines; the class is left open. */
  lemma ClassHeaderLines(c: Option<ClassItem>)
    requires ParseClass(c).Ok?
    requires '\n' !in ClassSignature(Strip(c.value.modifiers.value), Strip(c.value.name.value), Strip(c.value.extendsImplements.value))
    ensures Lines(ParseClass(c).value) ==
      ["/**", " * " + DocBody(c.value.body), " */",
       ClassSignature(Strip(c.value.modifiers.value), Strip(c.value.name.value), Strip(c.value.extendsImplements.value)) + " {",
       "", ""]
  {
    var signature := ClassSignature(Strip(c.value.modifiers.value), Strip(c.value.name.value), Strip(c.value.extendsImplements.value));
    HeaderLines(DocBody(c.value.body), signature);
  }

  lemma HeaderLines(body: string, signature: string)
    requires '\n' !in body && '\n' !in signature
    ensures Lines("/**\n * " + body + "\n */\n" + signature + " {\n\n") ==
      ["/**", " * " + body, " */", signature + " {", "", ""]
  {
    HeaderText(body, signature);
    var ls := ["/**", " * " + body, " */", signature + " {", ""];
    assert forall i :: 0 <= i < |ls| ==> '\n' !in ls[i];
    LinesOfUnlines(ls, "");
    assert ls + [""] == ["/**", " * " + body, " */", signature + " {", "", ""];
  }

  lemma HeaderText(body: string, signature: string)
    ensures "/**\n * " + body + "\n */\n" + signature + " {\n\n" ==
      Unlines(["/**", " * " + body, " */", signature + " {", ""]) + ""
  {
    var tail := [signature + " {", ""];
    assert tail == [signature + " {"] + [""];
    UnlinesCons(signature + " {", [""]);
    UnlinesCons("", []);
    assert Unlines(tail) == signature + " {\n\n" by {
      assert signature + " {" + "\n" + ("" + "\n" + "") == signature + " {\n\n";
    }
    assert ["/**", " * " + body, " */", signature + " {", ""] == ["/**", " * " + body, " */"] + tail;
    UnlinesAppend(["/**", " * " + body, " */"], tail);
    CommentOfThreeLines(body, Unlines(tail));
  }
}
