/** Optional values and results with an error, used for the spans and
    lookups that the converter may find absent. */
module Wrappers {

  datatype Option<+T> = None | Some(value: T)

  datatype Result<+T, +E> = Ok(value: T) | Err(error: E)
}

/** Why a conversion stops. The converter has no error handling of its own:
    each of these is an attribute lookup on a tree search that found nothing,
    which raises in Python and ends the run. */
module Failures {

  datatype Error =
    | MissingClassDescription          // no `section.class-description`
    | MissingSpan(span: string)        // a required span of a signature is absent
    | MissingMemberList(section: string) // a details section without its `ul.member-list`
    | MissingReturnsValue              // a `Returns:` label with no `dd` after it
}
