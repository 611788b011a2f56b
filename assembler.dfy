/** parse_fields, parse_constructor, parse_methods and parse_soup: the
    members of each details section in page order, and the whole stub. */
module Assembler {
  import opened Wrappers
  import opened Failures
  import opened Text
  import opened Members
  import opened ClassHeader

  /** A details section found on the page: the direct `li` children of its
      `ul.member-list`, or nothing when the section has no such list. */
  datatype Section<T> = Section(memberList: Option<seq<T>>)

  /** What the converter looks up on a page: the class description section
      and the three details sections, each of which may be absent. */
  datatype Page = Page(
    classDescription: Option<ClassItem>,
    fieldDetails: Option<Section<FieldItem>>,
    constructorDetails: Option<Section<MethodItem>>,
    methodDetails: Option<Section<MethodItem>>)

  /** The text of a list of members: the text of each member followed by an
      empty line, in list order; the first member that fails ends it. */
  function Units<T>(items: seq<T>, unit: T -> Result<string, Error>): Result<string, Error> {
    if items == [] then Ok("")
    else
      match Units(items[..|items| - 1], unit)
      case Err(e) => Err(e)
      case Ok(text) =>
        match unit(items[|items| - 1])
        case Err(e) => Err(e)
        case Ok(u) => Ok(text + (u + "\n\n"))
  }

  /** The text of a details section: empty when the page lacks the section,
      a failure when the section lacks its member list. */
  function SectionText<T>(section: Option<Section<T>>, unit: T -> Result<string, Error>, name: string): Result<string, Error> {
    match section
    case None => Ok("")
    case Some(s) =>
      match s.memberList
      case None => Err(MissingMemberList(name))
      case Some(items) => Units(items, unit)
  }

  /** What parse_soup yields: the class header, the fields, the
      constructors, the methods and the closing brace. The first failure,
      in that order, is the result. */
  function Soup(p: Page): Result<string, Error> {
    match ParseClass(p.classDescription)
    case Err(e) => Err(e)
    case Ok(header) =>
      match SectionText(p.fieldDetails, ParseFieldLi, "field-details")
      case Err(e) => Err(e)
      case Ok(fields) =>
        match SectionText(p.constructorDetails, MethodStub, "constructor-details")
        case Err(e) => Err(e)
        case Ok(constructors) =>
          match SectionText(p.methodDetails, MethodStub, "method-details")
          case Err(e) => Err(e)
          case Ok(methods) => Ok(header + fields + constructors + methods + "}")
  }

  lemma UnitsStep<T>(items: seq<T>, i: nat, unit: T -> Result<string, Error>)
    requires i < |items|
    ensures Units(items[..i + 1], unit) ==
      match Units(items[..i], unit)
      case Err(e) => Err(e)
      case Ok(text) =>
        match unit(items[i])
        case Err(e) => Err(e)
        case Ok(u) => Ok(text + (u + "\n\n"))
  {
    assert items[..i + 1][..i] == items[..i];
  }

  /** Once a member fails, the members after it change nothing. */
  lemma {:induction false} UnitsErrStays<T>(a: seq<T>, b: seq<T>, unit: T -> Result<string, Error>)
    requires Units(a, unit).Err?
    ensures Units(a + b, unit) == Units(a, unit)
    decreases |b|
  {
    if b == [] {
      assert a + b == a;
    } else {
      var init := b[..|b| - 1];
      UnitsErrStays(a, init, unit);
      assert (a + b)[..|a + b| - 1] == a + init;
    }
  }

  /** A list of members yields text exactly when every member does. */
  lemma {:induction false} UnitsOk<T>(items: seq<T>, unit: T -> Result<string, Error>)
    ensures Units(items, unit).Ok? <==> forall i :: 0 <= i < |items| ==> unit(items[i]).Ok?
  {
    if items != [] {
      var init := items[..|items| - 1];
      UnitsOk(init, unit);
      assert forall i :: 0 <= i < |init| ==> init[i] == items[i];
    }
  }

  /** A failing list fails with the error of its first failing member. */
  lemma {:induction false} UnitsFirstError<T>(items: seq<T>, unit: T -> Result<string, Error>)
    requires Units(items, unit).Err?
    ensures exists i :: (0 <= i < |items| && unit(items[i]) == Err(Units(items, unit).error)
      && forall j :: 0 <= j < i ==> unit(items[j]).Ok?)
  {
    var init := items[..|items| - 1];
    var last := |items| - 1;
    assert forall i :: 0 <= i < |init| ==> init[i] == items[i];
    if Units(init, unit).Err? {
      UnitsFirstError(init, unit);
      var i :| 0 <= i < |init| && unit(init[i]) == Err(Units(init, unit).error)
        && forall j :: 0 <= j < i ==> unit(init[j]).Ok?;
      assert unit(items[i]) == Err(Units(items, unit).error);
    } else {
      UnitsOk(init, unit);
      assert unit(items[last]) == Err(Units(items, unit).error);
    }
  }

  /** The text of a single member is its own text and an empty line. */
  lemma UnitsSingle<T>(x: T, unit: T -> Result<string, Error>)
    requires unit(x).Ok?
    ensures Units([x], unit) == Ok(unit(x).value + "\n\n")
  {
    assert [x][..|[x]| - 1] == [];
    assert "" + (unit(x).value + "\n\n") == unit(x).value + "\n\n";
  }

  /** The text of a list is the text of its first part followed by the text
      of the rest: members are neither reordered nor merged. */
  lemma {:induction false} UnitsConcat<T>(a: seq<T>, b: seq<T>, unit: T -> Result<string, Error>)
    requires Units(a, unit).Ok? && Units(b, unit).Ok?
    ensures Units(a + b, unit) == Ok(Units(a, unit).value + Units(b, unit).value)
    decreases |b|
  {
    if b == [] {
      assert a + b == a;
      assert Units(a, unit).value + "" == Units(a, unit).value;
    } else {
      var init := b[..|b| - 1];
      var x := b[|b| - 1];
      UnitsOk(b, unit);
      assert forall i :: 0 <= i < |init| ==> init[i] == b[i];
      UnitsOk(init, unit);
      UnitsConcat(a, init, unit);
      assert (a + b)[..|a + b| - 1] == a + init;
      assert (a + b)[|a + b| - 1] == x;
      ConcatAssoc(Units(a, unit).value, Units(init, unit).value, unit(x).value + "\n\n");
    }
  }

  /** A section with an empty member list reads like an absent section. */
  lemma EmptySectionLikeAbsent<T>(unit: T -> Result<string, Error>, name: string)
    ensures SectionText(Some(Section(Some([]))), unit, name) == SectionText(None, unit, name) == Ok("")
  {
  }

  /** The stub fails exactly when one of its four parts fails, and then
      with the error of the first that does, in page order. */
  lemma SoupErrors(p: Page)
    ensures var header := ParseClass(p.classDescription);
      var fields := SectionText(p.fieldDetails, ParseFieldLi, "field-details");
      var constructors := SectionText(p.constructorDetails, MethodStub, "constructor-details");
      var methods := SectionText(p.methodDetails, MethodStub, "method-details");
      && (Soup(p).Ok? <==> header.Ok? && fields.Ok? && constructors.Ok? && methods.Ok?)
      && (header.Err? ==> Soup(p) == Err(header.error))
      && (header.Ok? && fields.Err? ==> Soup(p) == Err(fields.error))
      && (header.Ok? && fields.Ok? && constructors.Err? ==> Soup(p) == Err(constructors.error))
      && (header.Ok? && fields.Ok? && constructors.Ok? && methods.Err? ==> Soup(p) == Err(methods.error))
  {
  }

  /** A stub that is produced starts with the opening of the class comment
      and ends with the closing brace of the class. */
  lemma SoupShape(p: Page)
    requires Soup(p).Ok?
    ensures |Soup(p).value| >= 8
    ensures Soup(p).value[..7] == "/**\n * "
    ensures Soup(p).value[|Soup(p).value| - 1] == '}'
  {
    SoupErrors(p);
    var h := ParseClass(p.classDescription).value;
    var f := SectionText(p.fieldDetails, ParseFieldLi, "field-details").value;
    var c := SectionText(p.constructorDetails, MethodStub, "constructor-details").value;
    var m := SectionText(p.methodDetails, MethodStub, "method-details").value;
    assert Soup(p).value == h + f + c + m + "}";
    HeaderStart(p.classDescription);
    PartsShape(h, f + c + m);
    ConcatAssoc(h, f, c);
    ConcatAssoc(h, f + c, m);
  }

  lemma PartsShape(h: string, rest: string)
    requires |h| >= 7 && h[..7] == "/**\n * "
    ensures var v := h + rest + "}"; |v| >= 8 && v[..7] == "/**\n * " && v[|v| - 1] == '}'
  {
    var v := h + rest + "}";
    assert v[..7] == h[..7];
  }

  /** A page without details sections yields the header and the brace. */
  lemma ClassOnly(c: Option<ClassItem>)
    requires ParseClass(c).Ok?
    ensures Soup(Page(c, None, None, None)) == Ok(ParseClass(c).value + "}")
  {
    assert ParseClass(c).value + "" + "" + "" == ParseClass(c).value;
  }

  /** The text of the fields of a page, written as parse_fields does: one
      member at a time, each followed by an empty line. */
  method ParseFields(section: Option<Section<FieldItem>>) returns (r: Result<string, Error>)
    ensures r == SectionText(section, ParseFieldLi, "field-details")
  {
    var text := "";
    if section.Some? {
      if section.value.memberList.None? {
        return Err(MissingMemberList("field-details"));
      }
      var items := section.value.memberList.value;
      for i := 0 to |items|
        invariant Units(items[..i], ParseFieldLi) == Ok(text)
      {
        UnitsStep(items, i, ParseFieldLi);
        var unit := ParseFieldLi(items[i]);
        if unit.Err? {
          UnitsErrStays(items[..i + 1], items[i + 1..], ParseFieldLi);
          assert items[..i + 1] + items[i + 1..] == items;
          return Err(unit.error);
        }
        text := text + (unit.value + "\n\n");
      }
      assert items[..|items|] == items;
    }
    return Ok(text);
  }

  /** The text of the constructors or the methods of a page, written as
      parse_constructor and parse_methods do: one member at a time, each
      followed by an empty line. */
  method ParseMemberSection(section: Option<Section<MethodItem>>, name: string) returns (r: Result<string, Error>)
    ensures r == SectionText(section, MethodStub, name)
  {
    var text := "";
    if section.Some? {
      if section.value.memberList.None? {
        return Err(MissingMemberList(name));
      }
      var items := section.value.memberList.value;
      for i := 0 to |items|
        invariant Units(items[..i], MethodStub) == Ok(text)
      {
        UnitsStep(items, i, MethodStub);
        var unit := ParseMethodLi(items[i]);
        if unit.Err? {
          UnitsErrStays(items[..i + 1], items[i + 1..], MethodStub);
          assert items[..i + 1] + items[i + 1..] == items;
          return Err(unit.error);
        }
        text := text + (unit.value + "\n\n");
      }
      assert items[..|items|] == items;
    }
    return Ok(text);
  }

  /** parse_soup: the four parts in page order and the closing brace. */
  method ParseSoup(p: Page) returns (r: Result<string, Error>)
    ensures r == Soup(p)
  {
    var classString := ParseClass(p.classDescription);
    if classString.Err? {
      return Err(classString.error);
    }
    var fieldsString := ParseFields(p.fieldDetails);
    if fieldsString.Err? {
      return Err(fieldsString.error);
    }
    var constructorString := ParseMemberSection(p.constructorDetails, "constructor-details");
    if constructorString.Err? {
      return Err(constructorString.error);
    }
    var methodsString := ParseMemberSection(p.methodDetails, "method-details");
    if methodsString.Err? {
      return Err(methodsString.error);
    }
    r := Ok(classString.value + fieldsString.value + constructorString.value + methodsString.value + "}");
  }
}
