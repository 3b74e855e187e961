/** `YAMLHandler`: the parse result feeds the table builder, and the table
    feeds the dispatcher.  The YAML decoder itself (`parseYAML`, which wraps
    `yaml.Unmarshal`) is foreign code; its outcome is taken as an input. */
module UrlShort {
  import opened Wrappers
  import opened PathTable
  import opened Dispatch

  /** The decoder's error: malformed YAML or a document of the wrong shape. */
  datatype ParseError = ParseError(message: string)

  /** `YAMLHandler(yml, fallback)` given the decoder's outcome on `yml`:
      a decoding error is returned as is, with no handler; decoded rules are
      folded into a table and served by `MapHandler`. */
  function YAMLHandler(parsed: Result<seq<Rule>, ParseError>): (r: Result<Handler, ParseError>)
    ensures parsed.Failure? ==> r.Failure? && r.error == parsed.error
    ensures parsed.Success? ==> r.Success?
    ensures parsed.Success? ==>
      forall req: Request :: r.value(req) == MapHandler(MakeMap(parsed.value))(req)
  {
    match parsed
    case Failure(err) => Failure(err)
    case Success(paths) => Success(MapHandler(MakeMap(paths)))
  }

  /** End to end: the handler built from decoded rules redirects a request
      exactly when some rule mentions its path, to the destination of the
      last such rule, and otherwise hands the request, unchanged, to the
      fallback. */
  lemma YAMLHandlerServes(rules: seq<Rule>, req: Request)
    ensures YAMLHandler(Success(rules)).Success?
    ensures req.path in PathsOf(rules) ==>
      YAMLHandler(Success(rules)).value(req)
        == Redirect(rules[LastIndex(rules, req.path)].url, StatusFound)
    ensures req.path !in PathsOf(rules) ==>
      YAMLHandler(Success(rules)).value(req) == Fallback(req)
  {
    if req.path in PathsOf(rules) {
      MakeMapLastWriteWins(rules, req.path);
    }
  }

  /** A document that decodes to no rules yields a handler that sends every
      request to the fallback. */
  lemma EmptyDocumentFallsBack(req: Request)
    ensures YAMLHandler(Success([])).value(req) == Fallback(req)
  {
  }

  /** Example: with `/u` mapped twice, the
      second destination is the one redirected to. */
  lemma DuplicateDocumentExample(req: Request)
    requires req.path == "/u"
    ensures YAMLHandler(Success([Rule("/u", "https://u.example"), Rule("/u", "https://v.example")])).value(req)
      == Redirect("https://v.example", StatusFound)
  {
    var rules := [Rule("/u", "https://u.example"), Rule("/u", "https://v.example")];
    MakeMapAppend([rules[0]], rules[1]);
    assert [rules[0]] + [rules[1]] == rules;
    assert [rules[0]][..0] == [];
  }
}
