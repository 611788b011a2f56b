/** parse_method_notes_dl: reading a method's parameters, thrown exceptions,
    return description and override marker out of its notes list. The list
    is given as the sequence of its child elements in document order. */
module Notes {
  import opened Wrappers
  import opened Failures

  /** A child element of the notes `<dl>`: its tag name and its text. */
  datatype Node = Node(name: string, text: string)

  /** The four results of the walk, in the order the converter returns them. */
  datatype DocNotes = DocNotes(parameters: seq<string>, throws: seq<string>, returnDoc: string, overrides: bool)

  /** A `dt` element whose string is exactly `caption`. */
  predicate IsLabel(n: Node, caption: string) {
    n.name == "dt" && n.text == caption
  }

  ghost predicate HasLabel(dl: seq<Node>, caption: string) {
    exists i :: 0 <= i < |dl| && IsLabel(dl[i], caption)
  }

  function FirstLabelFrom(dl: seq<Node>, caption: string, i: nat): (k: Option<nat>)
    requires i <= |dl|
    ensures k.Some? ==> i <= k.value < |dl| && IsLabel(dl[k.value], caption)
    ensures k.Some? ==> forall j :: i <= j < k.value ==> !IsLabel(dl[j], caption)
    ensures k.None? ==> forall j :: i <= j < |dl| ==> !IsLabel(dl[j], caption)
    decreases |dl| - i
  {
    if i == |dl| then None
    else if IsLabel(dl[i], caption) then Some(i)
    else FirstLabelFrom(dl, caption, i + 1)
  }

  /** `notes_dl.find('dt', string=caption)`: the position of the first such caption. */
  function FirstLabel(dl: seq<Node>, caption: string): (k: Option<nat>)
    ensures k.Some? ==> k.value < |dl| && IsLabel(dl[k.value], caption)
    ensures k.Some? ==> forall j :: 0 <= j < k.value ==> !IsLabel(dl[j], caption)
    ensures k.None? <==> !HasLabel(dl, caption)
  {
    FirstLabelFrom(dl, caption, 0)
  }

  /** `texts` are the texts of the `dd` elements from position `start` on, up
      to the first element that is not a `dd` (or the end of the list). */
  ghost predicate IsDdRun(dl: seq<Node>, start: nat, texts: seq<string>) {
    && start + |texts| <= |dl|
    && (forall k :: start <= k < start + |texts| ==> dl[k].name == "dd" && dl[k].text == texts[k - start])
    && (start + |texts| == |dl| || dl[start + |texts|].name != "dd")
  }

  /** The texts of the run of `dd` siblings that starts at `start`. */
  function DdRun(dl: seq<Node>, start: nat): (texts: seq<string>)
    requires start <= |dl|
    ensures start + |texts| <= |dl|
    decreases |dl| - start
  {
    if start < |dl| && dl[start].name == "dd" then [dl[start].text] + DdRun(dl, start + 1)
    else []
  }

  /** `DdRun` is the run of `dd` texts that starts at `start`. */
  lemma {:induction false} DdRunIsRun(dl: seq<Node>, start: nat)
    requires start <= |dl|
    ensures IsDdRun(dl, start, DdRun(dl, start))
    decreases |dl| - start
  {
    if start < |dl| && dl[start].name == "dd" {
      DdRunIsRun(dl, start + 1);
      var rest := DdRun(dl, start + 1);
      assert DdRun(dl, start) == [dl[start].text] + rest;
      forall k | start < k < start + 1 + |rest|
        ensures dl[k].name == "dd" && dl[k].text == DdRun(dl, start)[k - start]
      {
        assert DdRun(dl, start)[k - start] == rest[k - (start + 1)];
      }
    }
  }

  /** `find_next_sibling('dd')` from position `start` on: the first `dd`,
      however far away. */
  function NextDd(dl: seq<Node>, start: nat): (k: Option<nat>)
    requires start <= |dl|
    ensures k.Some? ==> start <= k.value < |dl| && dl[k.value].name == "dd"
    ensures k.Some? ==> forall j :: start <= j < k.value ==> dl[j].name != "dd"
    ensures k.None? ==> forall j :: start <= j < |dl| ==> dl[j].name != "dd"
    decreases |dl| - start
  {
    if start == |dl| then None
    else if dl[start].name == "dd" then Some(start)
    else NextDd(dl, start + 1)
  }

  /** The run of `dd` siblings right after the first `caption`, or nothing
      when there is no such caption. */
  function RunAfterLabel(dl: seq<Node>, caption: string): seq<string> {
    match FirstLabel(dl, caption)
    case None => []
    case Some(i) => DdRun(dl, i + 1)
  }

  /** The text of the first `dd` after the first `caption`; empty when there
      is no such caption, and a failure when no `dd` follows it. */
  function ReturnAfterLabel(dl: seq<Node>, caption: string): Result<string, Error> {
    match FirstLabel(dl, caption)
    case None => Ok("")
    case Some(i) =>
      match NextDd(dl, i + 1)
      case None => Err(MissingReturnsValue)
      case Some(k) => Ok(dl[k].text)
  }

  /** What the walk over the notes list yields. */
  function NotesOf(dl: seq<Node>): Result<DocNotes, Error> {
    match ReturnAfterLabel(dl, "Returns:")
    case Err(e) => Err(e)
    case Ok(returnDoc) =>
      Ok(DocNotes(RunAfterLabel(dl, "Parameters:"), RunAfterLabel(dl, "Throws:"), returnDoc,
                  FirstLabel(dl, "Overrides:").Some?))
  }

  /** One turn of the sibling loop: the `dd` at `sibling` moves from the run
      still to be read to the texts already collected. */
  lemma DdRunStep(dl: seq<Node>, start: nat, sibling: nat, texts: seq<string>)
    requires start <= sibling < |dl| && dl[sibling].name == "dd"
    requires DdRun(dl, start) == texts + DdRun(dl, sibling)
    ensures DdRun(dl, start) == (texts + [dl[sibling].text]) + DdRun(dl, sibling + 1)
  {
    var rest := DdRun(dl, sibling + 1);
    assert DdRun(dl, sibling) == [dl[sibling].text] + rest;
    assert texts + ([dl[sibling].text] + rest) == (texts + [dl[sibling].text]) + rest;
  }

  /** The loop `while sibling and sibling.name == 'dd'` that follows a
      label: it collects the texts of the `dd` siblings from `start` on. */
  method CollectDdRun(dl: seq<Node>, start: nat) returns (texts: seq<string>)
    requires start <= |dl|
    ensures texts == DdRun(dl, start)
  {
    texts := [];
    var sibling := start;
    assert [] + DdRun(dl, start) == DdRun(dl, start);
    while sibling < |dl| && dl[sibling].name == "dd"
      invariant start <= sibling <= |dl|
      invariant DdRun(dl, start) == texts + DdRun(dl, sibling)
      decreases |dl| - sibling
    {
      DdRunStep(dl, start, sibling, texts);
      texts := texts + [dl[sibling].text];
      sibling := sibling + 1;
    }
    assert DdRun(dl, sibling) == [];
    assert texts + [] == texts;
  }

  /** The walk as the converter performs it: the `dd` siblings after
      `Parameters:` and after `Throws:`, one lookup of the `dd` after
      `Returns:`, one test for `Overrides:`. */
  method ParseMethodNotesDl(dl: seq<Node>) returns (r: Result<DocNotes, Error>)
    ensures r == NotesOf(dl)
  {
    var parameters: seq<string> := [];
    var throws: seq<string> := [];
    var returnDoc := "";
    var overrides := false;

    var parametersDt := FirstLabel(dl, "Parameters:");
    if parametersDt.Some? {
      parameters := CollectDdRun(dl, parametersDt.value + 1);
    }
    assert parameters == RunAfterLabel(dl, "Parameters:");

    var throwsDt := FirstLabel(dl, "Throws:");
    if throwsDt.Some? {
      throws := CollectDdRun(dl, throwsDt.value + 1);
    }
    assert throws == RunAfterLabel(dl, "Throws:");

    var returnsDt := FirstLabel(dl, "Returns:");
    if returnsDt.Some? {
      var dd := NextDd(dl, returnsDt.value + 1);
      if dd.None? {
        return Err(MissingReturnsValue);
      }
      returnDoc := dl[dd.value].text;
    }
    assert ReturnAfterLabel(dl, "Returns:") == Ok(returnDoc);

    if FirstLabel(dl, "Overrides:").None? {
      overrides := false;
    } else {
      overrides := true;
    }

    r := Ok(DocNotes(parameters, throws, returnDoc, overrides));
  }

  /** A run of `dd` siblings is determined by where it starts. */
  lemma DdRunUnique(dl: seq<Node>, start: nat, a: seq<string>, b: seq<string>)
    requires IsDdRun(dl, start, a) && IsDdRun(dl, start, b)
    ensures a == b
  {
    assert |a| == |b|;
    forall m | 0 <= m < |a|
      ensures a[m] == b[m]
    {
      assert dl[start + m].text == a[m];
    }
  }

  /** `texts` is what is collected for `caption`: the `dd` run right after
      the first such caption, or nothing without one. */
  ghost predicate IsRunAfterLabel(dl: seq<Node>, caption: string, texts: seq<string>) {
    if HasLabel(dl, caption) then IsDdRun(dl, FirstLabel(dl, caption).value + 1, texts) else texts == []
  }

  /** The run collected for a caption: the `dd` siblings right after its first
      occurrence, and nothing when it is absent, in both directions. */
  lemma RunAfterLabelMeaning(dl: seq<Node>, caption: string, texts: seq<string>)
    ensures RunAfterLabel(dl, caption) == texts <==> IsRunAfterLabel(dl, caption, texts)
  {
    if HasLabel(dl, caption) {
      var start := FirstLabel(dl, caption).value + 1;
      DdRunIsRun(dl, start);
      if IsDdRun(dl, start, texts) {
        DdRunUnique(dl, start, texts, RunAfterLabel(dl, caption));
      }
    }
  }

  /** `text` is the return description for `caption`: the text of the first
      `dd` after the first such caption, or empty without one. */
  ghost predicate IsReturnAfterLabel(dl: seq<Node>, caption: string, text: string) {
    if HasLabel(dl, caption) then
      var i := FirstLabel(dl, caption).value;
      exists k :: i < k < |dl| && dl[k].name == "dd" && text == dl[k].text
        && forall j :: i < j < k ==> dl[j].name != "dd"
    else text == ""
  }

  /** The return lookup fails exactly when a `dd` follows no `caption`, and
      otherwise yields the text of the first `dd` after it. */
  lemma ReturnAfterLabelMeaning(dl: seq<Node>, caption: string)
    ensures ReturnAfterLabel(dl, caption).Err? <==>
      HasLabel(dl, caption) && NextDd(dl, FirstLabel(dl, caption).value + 1).None?
    ensures ReturnAfterLabel(dl, caption).Ok? ==> IsReturnAfterLabel(dl, caption, ReturnAfterLabel(dl, caption).value)
  {
    if HasLabel(dl, caption) {
      var i := FirstLabel(dl, caption).value;
      var next := NextDd(dl, i + 1);
      if next.Some? {
        var k := next.value;
        assert ReturnAfterLabel(dl, caption) == Ok(dl[k].text);
        assert i < k < |dl| && dl[k].name == "dd";
      }
    }
  }

  /** The walk fails exactly when a `Returns:` caption has no `dd` anywhere
      after it. Otherwise the parameters and the exceptions are the `dd`
      runs right after their captions (empty without the caption), the
      return description is the text of the first `dd` after `Returns:`
      (empty without the caption), and `overrides` says whether an
      `Overrides:` caption is present, whatever the other three are. */
  lemma NotesOfMeaning(dl: seq<Node>)
    ensures NotesOf(dl).Err? <==>
      HasLabel(dl, "Returns:") && NextDd(dl, FirstLabel(dl, "Returns:").value + 1).None?
    ensures NotesOf(dl).Ok? ==>
      && IsRunAfterLabel(dl, "Parameters:", NotesOf(dl).value.parameters)
      && IsRunAfterLabel(dl, "Throws:", NotesOf(dl).value.throws)
      && IsReturnAfterLabel(dl, "Returns:", NotesOf(dl).value.returnDoc)
      && (NotesOf(dl).value.overrides <==> HasLabel(dl, "Overrides:"))
  {
    ReturnAfterLabelMeaning(dl, "Returns:");
    RunAfterLabelMeaning(dl, "Parameters:", RunAfterLabel(dl, "Parameters:"));
    RunAfterLabelMeaning(dl, "Throws:", RunAfterLabel(dl, "Throws:"));
  }
}
