/** Whether a JSON access-log entry is JSON, and who decides. */
module JsonLog {
  import opened Text
  import opened AccessLog
  import opened Config
  import opened HttpRouting

  /** The text fields that come from the request or from the proxy itself. */
  ghost function RequestFields(e: Entry): seq<string> {
    [e.remoteAddr, e.timeLocal, e.verb, e.requestUri, e.protocol, e.referer, e.userAgent, e.requestId]
  }

  ghost predicate JsonField(s: string) { JsonContent(EscapeAccessField(s)) }

  /** Every text field is JSON string content once escaped. */
  ghost predicate JsonEntry(e: Entry) {
    (forall t :: t in RequestFields(e) ==> JsonField(t)) && JsonField(e.route) && JsonField(e.upstream)
  }

  /** No control character but those that are escaped. */
  ghost predicate Clean(s: string) { forall i :: 0 <= i < |s| ==> ' ' <= s[i] || Breaks(s[i]) }

  /** Header values pass through `HeaderValue::to_str`, which lets printable ASCII and tabs through; the other
      request fields have no control characters at all. */
  ghost predicate WireText(s: string) { forall i :: 0 <= i < |s| ==> ' ' <= s[i] || s[i] == '\t' }

  ghost predicate RequestTexts(e: Entry) { forall t :: t in RequestFields(e) ==> WireText(t) }

  /** The label of a routed request: the route's name, or else its upstream's. */
  function RouteLabel(m: Routed): string { m.name.Or(m.upstream) }

  /** No client can break an entry: with fields as the proxy receives them, only the configured names decide. */
  lemma NamesDecideJson(e: Entry)
    requires RequestTexts(e)
    ensures JsonEntry(e) <==> Clean(e.route) && Clean(e.upstream)
  {
    JsonContentIff(e.route);
    JsonContentIff(e.upstream);
    forall t | t in RequestFields(e) ensures JsonField(t) { JsonContentIff(t); }
  }

  /** A configuration with one route, of the given name. */
  ghost function NamedRoute(listen: Addr, name: string): Config {
    Config(
      ServerConfig(listen, [], None, false),
      map["u" := UpstreamConfig(["h"])],
      [RouteConfig(Some(name), RouteMatch(None, None, Some("/"), [], map[]), "u", None, None, None)],
      None, [], Logging(true, true, "e", "a", "c"))
  }

  /** A configured name can: validation does not look at names, so a route name with a control character is
      accepted, compiles, and makes the entry of every request the route answers invalid. */
  lemma ControlNameBreaksJson(listen: Addr, name: string, q: Request, e: Entry)
    requires !Clean(name) && "/" <= q.path && RequestTexts(e)
    ensures var c := NamedRoute(listen, name);
            && ValidConfig(c) && CompileRoute(c.routes[0]).Ok?
            && var r := CompileRoute(c.routes[0]).value;
               && RouteMatches(r, q)
               && (e.route == RouteLabel(RoutedBy(r, q)) ==> !JsonEntry(e))
  {
    NamesDecideJson(e);
  }
}
