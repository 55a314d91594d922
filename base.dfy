/** Outcomes, the failures the wiki core can raise, and the foreign collaborators it calls. */
module Base {

  datatype Option<+T> = None | Some(value: T)

  /** The exceptions the Python code raises, one constructor per kind that the core can tell apart. */
  datatype Error =
    | IOError          // open() of a missing file, of a directory, or under a missing directory
    | OSError          // os.remove, os.rename, os.makedirs, os.listdir failing
    | KeyError         // a metadata key that is not there
    | AttributeError   // an attribute never set, or a string method called on a list
    | TypeError        // a regular expression searched in something that is not a string
    | ValueError       // a page text without the blank line that ends its header
    | NotImplemented   // process() of the base markup class
    | PatternError     // re.compile of a malformed pattern
    | NotFound         // abort(404)

  datatype Result<+T> = Ok(value: T) | Err(error: Error)

  datatype Outcome = Pass | Fail(error: Error)

  /**
   * The code the core calls but that is not part of it: the two rendering libraries,
   * the regular-expression engine, Unicode lower-casing, `urlify`, and `os.linesep`.
   * Each is an arbitrary function here, so every property proved holds for all of them.
   */
  datatype Env = Env(
    markdownHtml: string -> string,                    // markdown.Markdown(...).convert
    markdownMeta: string -> map<string, seq<string>>,  // md.Meta after that conversion
    rstHtml: string -> string,                         // docutils with the HTML5 writer
    unknownTargets: string -> seq<string>,             // the "Unknown target name" names in docutils' output
    urlify: string -> string,                          // urlify(ref, False)
    lower: string -> string,                           // unicode.lower
    compiles: string -> bool,                          // re.compile(term) does not raise
    searches: (string, string) -> bool,                // re.compile(term).search(s) finds a match
    linesep: string)                                   // os.linesep
}
