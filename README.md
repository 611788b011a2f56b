# Javadoc page to Java stub, modelled in Dafny

The converter in `main.py` reads a Javadoc HTML page of one Java class and
writes a `.java` stub for it. The stub has a documentation comment and a
declaration for the class, for each field, for each constructor and for
each method. Every constructor and method gets a placeholder body; a
method whose return type is not `void` also gets a default `return`.

This project models everything between the parsed page and the written
file:

- the text normalizers `clean_characters`, `remove_linebreaks` and
  `remove_many_spaces` (module `Text`, which also defines the parts of
  Python's `str` and `re` that the converter uses: `strip`, `in`,
  `replace`, the match of `^[A-Za-z]+`, and `split('\n')` for reading the
  output back line by line);
- the walk over a method's notes list, `parse_method_notes_dl`
  (module `Notes`);
- the stubs of one field and of one constructor or method, with
  `parse_javadoc_body`, `parse_field_li` and `parse_method_li`
  (module `Members`);
- the class header, `parse_class` (module `ClassHeader`);
- the loops over the details sections and the final assembly,
  `parse_fields`, `parse_constructor`, `parse_methods` and `parse_soup`
  (module `Assembler`).

The parsed page is given as plain records. A span or section that the
page lacks is `None`. The notes list of a method is the sequence of its
child elements, each a tag name and a text. The converter has no error
handling. Where it reads an attribute of a lookup that found nothing,
Python raises and the run ends. The model returns an `Err` with the
reason in these cases (`Failures.Error`).

The parts of the converter that build their result step by step are
methods. Five of them hold the converter's loops:
- `CollectDdRun`, the sibling walk inside `parse_method_notes_dl`;
- `AppendThrowsClause` and `AppendTagLines`, the loops of
  `parse_method_li`;
- `ParseFields` and `ParseMemberSection`, the loops over the details
  sections.

The methods `ParseMethodNotesDl`, `ParseMethodLi`, `WriteDocComment` and
`AppendBody` are the straight-line sequences of appends around those
loops. `ParseSoup` is the final concatenation. Each method is proved equal
to a function, for example `NotesOf`, `MethodStub`, `DocComment`,
`SectionText` or `Soup`. Lemmas then state what those functions mean. For
the stubs, the partner view is the text split at line breaks: the field,
the method and the class header are each proved to be a given list of
lines.

Quirks of the converter are kept as written:

- the throws clause loses its last two characters even when no entry
  starts with a letter, which leaves ` throw`;
- a `char` return type gets the NUL character itself as its default value;
- the class's extends/implements text is kept only when it contains
  `extends Object`, and then every `extends Object` is removed from it.
  A plain `extends Object` therefore leaves a space before the brace, and
  `extends ObjectOutputStream` becomes `OutputStream`.

## Model

| member | source | states |
|---|---|---|
| Text.CleanCharacters | main.py:34-43 | the length is kept, no U+00A0 remains, each U+00A0 becomes a space and every other character stays at its position |
| Text.Without | main.py:54 | deleting one character: it no longer occurs and the result is not longer |
| Text.WithoutCounts | main.py:54 | deleting one character keeps every other character as often as before |
| Text.WithoutAppend | main.py:54 | deleting works piece by piece on a concatenation, so the kept characters keep their order |
| Text.RemoveLinebreaks | main.py:45-54 | no `\n` or `\r` remains and the result is not longer |
| Text.RemoveLinebreaksCounts | main.py:45-54 | every character other than `\n` and `\r` occurs as often as before |
| Text.RemoveLinebreaksAppend | main.py:45-54 | removing line breaks from a concatenation is removing them from each part |
| Text.RemoveLinebreaksIdentity | main.py:45-54 | a text without line breaks is returned unchanged |
| Text.RemoveManySpaces | main.py:56-65 | the result is not longer than the input |
| Text.ManySpacesEnds | main.py:65 | the result is empty exactly when the input is, and starts with whitespace exactly when the input does |
| Text.ManySpacesRun | main.py:65 | a whole whitespace run at the start of the text becomes one space exactly when it has ten or more characters; a shorter run is copied |
| Text.ManySpacesAfterText | main.py:65 | text that is empty or ends in non-whitespace is a boundary: collapsing a concatenation with it collapses each part on its own |
| Text.ManySpacesRunAnywhere | main.py:65 | every whole whitespace run, wherever it stands, becomes one space exactly when it has ten or more characters and is copied otherwise, and the text on either side is collapsed on its own |
| Text.ManySpacesLeavesNoLongRun | main.py:65 | no run of ten or more whitespace characters is left |
| Text.ManySpacesKeepsShortRuns | main.py:65 | a text whose runs are all shorter than ten is unchanged |
| Text.ManySpacesIdempotent | main.py:65 | collapsing twice gives the same as collapsing once |
| Text.ManySpacesKeepsText | main.py:65 | the characters that are not whitespace are kept, in order |
| Text.ManySpacesNoWs | main.py:65 | a text without whitespace is unchanged |
| Text.StripEmpty | main.py:92 | `strip()` is empty exactly for all-whitespace text |
| Text.StripSlice | main.py:92 | the stripped text is the slice of the input after its leading whitespace, and only whitespace follows it |
| Text.StripEnds | main.py:92 | text that is not all whitespace strips to a non-empty text with no whitespace at either end |
| Text.StripIdentity | main.py:92 | a text with no whitespace at either end is unchanged |
| Text.StripAfterWs | main.py:92 | leading whitespace makes no difference to the stripped text |
| Text.MatchLetters | main.py:177 | there is a match exactly when the entry starts with an ASCII letter, and then it is the longest run of letters that starts the entry |
| Text.Replace | main.py:242 | a text without the pattern is returned unchanged |
| Text.MissingCharNotContained | main.py:241 | a text that lacks one of the pattern's characters does not contain the pattern |
| Notes.FirstLabel | main.py:111 | the position of the first `dt` with the caption, none exactly when there is no such `dt` |
| Notes.DdRunIsRun | main.py:112-116 | the texts, in order, of the `dd` elements from a position up to the first element that is not a `dd` |
| Notes.NextDd | main.py:128 | the first `dd` at or after a position, however far away; none when there is none |
| Notes.CollectDdRun | main.py:112-116 | the sibling loop collects exactly the run of `dd` texts after the caption |
| Notes.ParseMethodNotesDl | main.py:96-135 | the walk over the notes list yields what `NotesOf` defines |
| Notes.RunAfterLabelMeaning | main.py:110-124 | the parameters (and likewise the exceptions) are the `dd` run right after the first caption, and are empty without the caption, in both directions |
| Notes.ReturnAfterLabelMeaning | main.py:126-128 | the return lookup fails exactly when the caption is present and no `dd` follows it; otherwise it is the text of the first `dd` after the caption, or empty without the caption |
| Notes.NotesOfMeaning | main.py:96-135 | the walk fails exactly when `Returns:` has no `dd` after it; otherwise the parameters and exceptions are the `dd` runs after their captions, the return text is that of the first `dd` after `Returns:` (empty without the caption), and `overrides` holds exactly when an `Overrides:` caption exists |
| Members.DocBody | main.py:67-80 | empty without a description block; otherwise the block's markup with its line breaks removed (whose meaning `Text.RemoveLinebreaksCounts` and `Text.RemoveLinebreaksAppend` state); never holds a line break |
| Members.ParseFieldLi | main.py:82-94 | a field fails exactly when one of its three spans is missing |
| Members.FieldLines | main.py:94 | a field is the four lines `/**`, ` * ` and the description, ` */`, and the declaration ending in `;` |
| Members.ExceptionNamesPerEntry | main.py:174-180 | when every throws entry starts with a letter there is one exception name per entry, in order; when none does there are none |
| Members.LettersAreClean | main.py:179 | the letters of a match pass the comment-text cleaning unchanged |
| Members.ThrowsPiecesJoin | main.py:174-180 | the text added for the throws entries is the exception names joined by `, ` and a final `, `, or nothing without names |
| Members.ThrowsClause | main.py:174-180 | with throws entries, the signature is followed by ` throws ` and the names joined by `, `, in document order and without removing repeats, or by ` throw` when no entry starts with a letter |
| Members.AppendThrowsClause | main.py:174-180 | the loop over the throws entries and the cut of two characters give the signature that `Signature` defines |
| Members.DefaultLiteral | main.py:204-221 | the default value is `null` exactly for a type that is not a Java primitive type; it is never empty and has no line break |
| Members.MethodStub | main.py:137-225 | a constructor or method fails exactly when its modifiers or name are missing or its notes walk fails |
| Members.AppendTagLines | main.py:183-196 | the loop adds one comment line per entry to the text so far |
| Members.WriteDocComment | main.py:165-200 | the comment built step by step is the one `DocComment` defines |
| Members.AppendBody | main.py:202-222 | the declaration, the TODO line, the default `return` and the closing brace give the stub text `StubOf` defines |
| Members.ParseMethodLi | main.py:137-225 | the stub built step by step is the one `MethodStub` defines |
| Members.TagLinesUnlines | main.py:184-196 | the tag lines are one line per entry, the lead followed by the cleaned entry |
| Members.DocCommentLines | main.py:165-200 | the comment is its lines: `/**`, the description, the parameter, return and exception groups each only when non-empty and after a ` * ` line, ` */`, and `@Override` exactly for an overriding method |
| Members.StubOfLines | main.py:165-222 | a stub is its comment lines, the signature line ending in ` {`, the TODO line, an empty line and the `return` line when there is one, then the closing brace |
| Members.MethodStubLines | main.py:137-225 | read line by line, a constructor or method is its comment lines, its declaration and its placeholder body, with a `return` line exactly when the return type is present and not `void` |
| ClassHeader.ParseClass | main.py:227-244 | the header fails exactly when the class description section or one of its three spans is missing, with the section checked first |
| ClassHeader.HeaderStart | main.py:244 | the header opens with the class comment |
| ClassHeader.SignatureWithoutExtendsObject | main.py:239-242 | without `extends Object` in the clause, the declaration is the modifiers and the name alone |
| ClassHeader.SignatureWithExtendsObject | main.py:239-242 | a clause starting with `extends Object` keeps the stripped rest, after a space, when the rest does not contain `extends Object` again |
| ClassHeader.ExactExtendsObject | main.py:239-242 | a plain `extends Object` leaves a trailing space |
| ClassHeader.ObjectPrefixedSuperclass | main.py:239-242 | an example: `extends ObjectOutputStream` leaves `OutputStream` |
| ClassHeader.OtherSuperclassDropped | main.py:239-242 | an example: `extends Node implements Comparable` is dropped whole, superclass and interfaces together (the general fact is `ClassHeader.SignatureWithoutExtendsObject`) |
| ClassHeader.ClassHeaderLines | main.py:244 | the header is the comment lines, the declaration followed by ` {`, and two empty lines, so the class is left open |
| Assembler.UnitsErrStays | main.py:261-262 | once a member fails, the members after it change nothing |
| Assembler.UnitsOk | main.py:261-262 | a list of members yields text exactly when every member does |
| Assembler.UnitsFirstError | main.py:261-262 | a failing list fails with the error of its first failing member |
| Assembler.UnitsSingle | main.py:262 | one member yields its own text and an empty line |
| Assembler.UnitsConcat | main.py:261-262 | the text of a list is the text of its first part followed by that of the rest |
| Assembler.EmptySectionLikeAbsent | main.py:255-264 | a section with an empty member list gives the same empty text as an absent section |
| Assembler.ParseFields | main.py:246-264 | the loop over the fields yields what `SectionText` defines for the field details |
| Assembler.ParseMemberSection | main.py:266-304 | the loop over the constructors or the methods yields what `SectionText` defines for that section |
| Assembler.ParseSoup | main.py:306-320 | the whole stub is the one `Soup` defines |
| Assembler.SoupErrors | main.py:306-320 | the stub fails exactly when one of its four parts fails, with the error of the first failing part in page order |
| Assembler.SoupShape | main.py:320 | a stub starts with the opening of the class comment and ends with `}` |
| Assembler.ClassOnly | main.py:306-320 | a page without details sections gives the class header followed by `}` |

## Left out

- `read_html`, `write_java_file` and `main` (main.py:6-32, 323-343) read and write files and parse the command line; they are not modelled.
- The HTML parser and its tree searches are not modelled. The records hold what the searches find: the raw text of each span, the markup inside a `div.block`, the `li` children of a member list, and the children of a notes list.
- The notes list is taken as a flat list of its children. `find` also searches deeper descendants, and a nested `dt` or `dd` is not represented.
- `Notes.Node`: one text stands for both the `.string` that a caption is compared with and the `.text` of a `dd`. A `dt` with more than one child has no `.string` in the parser; such a `dt` is not represented.
- A missing `div.member-signature` or `div.type-signature` raises in the converter on its first span lookup. The model represents that case as the first required span being absent.
- The `re` engine is not modelled. `\s{10,}` substitution and the `^[A-Za-z]+` match are explicit functions over Python's whitespace set and the ASCII letters.
- `encode_contents().decode('utf-8')` is not modelled; the block's inner markup is given as a string.
- Members.FieldLines: holds only when the stripped spans contain no line break, because the line view needs line breaks only where the converter writes them.
- Members.MethodStubLines: holds only when the stripped modifiers, name and return type contain no line break, for the same reason.
- ClassHeader.ClassHeaderLines: holds only when the declaration contains no line break, for the same reason.
- Text.Replace: states only that a text without the pattern is unchanged; a clause that starts with the pattern is covered by `ClassHeader.SignatureWithExtendsObject`, and other positions of the pattern are not characterised.
- Assembler.ParseMemberSection: models both `parse_constructor` and `parse_methods`, which differ only in the section they read.
- Members.ParseMethodLi: the chain of `if`/`elif` that writes the default value is the function `DefaultLiteral`. The comment's first line is written once the notes are read; in the converter it is written before, which makes no difference to the result.
