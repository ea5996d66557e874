/** The access log: field escaping and the combined line. */
module AccessLog {
  import opened Text
  import opened Decimal

  /** `str::replace` of one character. */
  function Replace(s: string, c: char, r: string): string {
    if s == "" then "" else (if s[0] == c then r else [s[0]]) + Replace(s[1..], c, r)
  }

  /** Five passes, backslashes first. */
  function EscapeAccessField(s: string): string {
    Replace(Replace(Replace(Replace(Replace(s, '\\', "\\\\"), '"', "\\\""), '\n', "\\n"), '\r', "\\r"), '\t', "\\t")
  }

  function EscapeChar(c: char): string {
    match c
    case '\\' => "\\\\"
    case '"' => "\\\""
    case '\n' => "\\n"
    case '\r' => "\\r"
    case '\t' => "\\t"
    case _ => [c]
  }

  function Escape(s: string): string {
    if s == "" then "" else EscapeChar(s[0]) + Escape(s[1..])
  }

  lemma ReplaceStep(a: char, s: string, c: char, r: string)
    ensures Replace([a] + s, c, r) == (if a == c then r else [a]) + Replace(s, c, r)
  {
    assert ([a] + s)[1..] == s;
  }

  lemma Assoc(x: string, y: string, z: string)
    ensures x + (y + z) == (x + y) + z
  {
  }

  lemma {:induction false} ReplaceConcat(x: string, y: string, c: char, r: string)
    ensures Replace(x + y, c, r) == Replace(x, c, r) + Replace(y, c, r)
  {
    if x == "" {
      assert x + y == y;
    } else {
      ReplaceConcat(x[1..], y, c, r);
      assert x + y == [x[0]] + (x[1..] + y);
      ReplaceStep(x[0], x[1..] + y, c, r);
      Assoc(if x[0] == c then r else [x[0]], Replace(x[1..], c, r), Replace(y, c, r));
    }
  }

  lemma PassesConcat(x: string, y: string)
    ensures EscapeAccessField(x + y) == EscapeAccessField(x) + EscapeAccessField(y)
  {
    var a, a' := Replace(x, '\\', "\\\\"), Replace(y, '\\', "\\\\");
    var b, b' := Replace(a, '"', "\\\""), Replace(a', '"', "\\\"");
    var c, c' := Replace(b, '\n', "\\n"), Replace(b', '\n', "\\n");
    var d, d' := Replace(c, '\r', "\\r"), Replace(c', '\r', "\\r");
    ReplaceConcat(x, y, '\\', "\\\\");
    ReplaceConcat(a, a', '"', "\\\"");
    ReplaceConcat(b, b', '\n', "\\n");
    ReplaceConcat(c, c', '\r', "\\r");
    ReplaceConcat(d, d', '\t', "\\t");
  }

  lemma ReplaceOne(a: char, c: char, r: string)
    ensures Replace([a], c, r) == if a == c then r else [a]
  {
    assert [a][1..] == "";
  }

  lemma ReplaceTwo(a: char, b: char, c: char, r: string)
    requires a != c && b != c
    ensures Replace([a, b], c, r) == [a, b]
  {
    assert [a, b][1..] == [b];
    ReplaceOne(b, c, r);
  }

  lemma PassesOnChar(c: char)
    ensures EscapeAccessField([c]) == EscapeChar(c)
  {
    ReplaceOne(c, '\\', "\\\\");
    ReplaceOne(c, '"', "\\\"");
    ReplaceOne(c, '\n', "\\n");
    ReplaceOne(c, '\r', "\\r");
    ReplaceOne(c, '\t', "\\t");
    if c == '\\' {
      ReplaceTwo('\\', '\\', '"', "\\\"");
      ReplaceTwo('\\', '\\', '\n', "\\n");
      ReplaceTwo('\\', '\\', '\r', "\\r");
      ReplaceTwo('\\', '\\', '\t', "\\t");
    } else if c == '"' {
      ReplaceTwo('\\', '"', '\n', "\\n");
      ReplaceTwo('\\', '"', '\r', "\\r");
      ReplaceTwo('\\', '"', '\t', "\\t");
    } else if c == '\n' {
      ReplaceTwo('\\', 'n', '\r', "\\r");
      ReplaceTwo('\\', 'n', '\t', "\\t");
    } else if c == '\r' {
      ReplaceTwo('\\', 'r', '\t', "\\t");
    }
  }

  /** The five passes are one pass that escapes each character by itself. */
  lemma {:induction false} PassesAreOnePass(s: string)
    ensures EscapeAccessField(s) == Escape(s)
  {
    if s != "" {
      assert s == [s[0]] + s[1..];
      PassesConcat([s[0]], s[1..]);
      PassesOnChar(s[0]);
      PassesAreOnePass(s[1..]);
    }
  }

  // ---------- Reading back ----------

  function Unescaped(c: char): char {
    match c
    case 'n' => '\n'
    case 'r' => '\r'
    case 't' => '\t'
    case _ => c
  }

  /** Reads a quoted field: the text up to the first quote that no backslash precedes, and what follows. */
  function ReadQuoted(s: string): Option<(string, string)> {
    if s == "" then None
    else if s[0] == '"' then Some(("", s[1..]))
    else if s[0] == '\\' then
      if |s| == 1 then None
      else
        var r :- ReadQuoted(s[2..]);
        Some(([Unescaped(s[1])] + r.0, r.1))
    else
      var r :- ReadQuoted(s[1..]);
      Some(([s[0]] + r.0, r.1))
  }

  /** An escaped field between quotes reads back exactly, whatever follows. */
  lemma {:induction false} QuotedRoundTrip(s: string, rest: string)
    ensures ReadQuoted(EscapeAccessField(s) + ("\"" + rest)) == Some((s, rest))
  {
    PassesAreOnePass(s);
    EscapeRoundTrip(s, rest);
  }

  lemma ReadEscaped(c: char, t: string)
    requires ReadQuoted(t).Some?
    ensures ReadQuoted(['\\', c] + t) == Some(([Unescaped(c)] + ReadQuoted(t).value.0, ReadQuoted(t).value.1))
  {
    assert (['\\', c] + t)[2..] == t;
  }

  lemma ReadPlain(c: char, t: string)
    requires ReadQuoted(t).Some? && c != '"' && c != '\\'
    ensures ReadQuoted([c] + t) == Some(([c] + ReadQuoted(t).value.0, ReadQuoted(t).value.1))
  {
    assert ([c] + t)[1..] == t;
  }

  lemma ReadQuotedChar(c: char, t: string)
    requires ReadQuoted(t).Some?
    ensures ReadQuoted(EscapeChar(c) + t) == Some(([c] + ReadQuoted(t).value.0, ReadQuoted(t).value.1))
  {
    if |EscapeChar(c)| == 1 {
      ReadPlain(c, t);
    } else {
      var d := EscapeChar(c)[1];
      assert EscapeChar(c) == ['\\', d] && Unescaped(d) == c;
      ReadEscaped(d, t);
    }
  }

  lemma {:induction false} EscapeRoundTrip(s: string, rest: string)
    ensures ReadQuoted(Escape(s) + ("\"" + rest)) == Some((s, rest))
  {
    var tail := "\"" + rest;
    if s == "" {
      assert Escape(s) + tail == tail && tail[1..] == rest;
    } else {
      EscapeRoundTrip(s[1..], rest);
      ReadQuotedChar(s[0], Escape(s[1..]) + tail);
      assert Escape(s) + tail == EscapeChar(s[0]) + (Escape(s[1..]) + tail);
      assert s == [s[0]] + s[1..];
    }
  }

  /** Characters that end a line or a column. */
  predicate Breaks(c: char) { c == '\n' || c == '\r' || c == '\t' }

  predicate NoBreaks(s: string) { forall i :: 0 <= i < |s| ==> !Breaks(s[i]) }

  lemma {:induction false} EscapedHasNoBreaks(s: string)
    ensures NoBreaks(EscapeAccessField(s))
  {
    PassesAreOnePass(s);
    if s != "" {
      PassesAreOnePass(s[1..]);
      EscapedHasNoBreaks(s[1..]);
    }
  }

  // ---------- The combined line ----------

  datatype Entry = Entry(
    remoteAddr: string, timeLocal: string, verb: string, requestUri: string, protocol: string,
    status: nat, bytesSent: nat,
    referer: string, userAgent: string, requestId: string, route: string, upstream: string, durationMs: nat)

  /** Columns in quotes, each followed by a blank. */
  function Quoted(fields: seq<string>): string {
    if fields == [] then "" else "\"" + (EscapeAccessField(fields[0]) + ("\"" + (" " + Quoted(fields[1..]))))
  }

  /** One quoted column of three separately escaped parts. */
  function RequestColumn(e: Entry): string {
    "\"" + ((EscapeAccessField(e.verb) + " " + EscapeAccessField(e.requestUri) + " " + EscapeAccessField(e.protocol))
      + ("\"" + (" " + "")))
  }

  function Counts(e: Entry, rest: string): string { Print(e.status) + ([' '] + (Print(e.bytesSent) + ([' '] + rest))) }

  function Head(e: Entry, rest: string): string {
    EscapeAccessField(e.remoteAddr) + ([' '] + ("- - [" + (e.timeLocal + ([']'] + (" " + rest)))))
  }

  function TextFields(e: Entry): seq<string> { [e.referer, e.userAgent, e.requestId, e.route, e.upstream] }

  /** The combined line, column by column. */
  function FormatCombined(e: Entry): string {
    Head(e, RequestColumn(e) + Counts(e, Quoted(TextFields(e)) + Print(e.durationMs)))
  }

  function RequestLine(e: Entry): string { e.verb + " " + e.requestUri + " " + e.protocol }

  lemma RequestLineEscapes(e: Entry)
    ensures RequestColumn(e) == Quoted([RequestLine(e)])
  {
    PassesOnChar(' ');
    PassesConcat(e.verb + " " + e.requestUri + " ", e.protocol);
    PassesConcat(e.verb + " " + e.requestUri, " ");
    PassesConcat(e.verb + " ", e.requestUri);
    PassesConcat(e.verb, " ");
    assert [RequestLine(e)][1..] == [];
  }

  /** A reader of quoted columns. */
  function ReadFields(s: string, n: nat): Option<(seq<string>, string)>
    decreases n
  {
    if n == 0 then Some(([], s))
    else
      var open :- StripPrefix(s, "\"");
      var field :- ReadQuoted(open);
      var next :- StripPrefix(field.1, " ");
      var more :- ReadFields(next, n - 1);
      Some(([field.0] + more.0, more.1))
  }

  lemma StripConcat(p: string, rest: string)
    ensures StripPrefix(p + rest, p) == Some(rest)
  {
  }

  lemma FieldStep(field: string, rest: string, n: nat)
    requires n > 0 && ReadFields(rest, n - 1).Some?
    ensures var more := ReadFields(rest, n - 1).value;
            ReadFields("\"" + (EscapeAccessField(field) + ("\"" + (" " + rest))), n)
            == Some(([field] + more.0, more.1))
  {
    var t2 := " " + rest;
    var t1 := EscapeAccessField(field) + ("\"" + t2);
    StripConcat("\"", t1);
    QuotedRoundTrip(field, t2);
    StripConcat(" ", rest);
  }

  lemma ColumnConcat(field: string, more: string, rest: string)
    ensures ("\"" + (field + ("\"" + (" " + more)))) + rest == "\"" + (field + ("\"" + (" " + (more + rest))))
  {
  }

  lemma {:induction false} FieldsRoundTrip(fields: seq<string>, rest: string)
    ensures ReadFields(Quoted(fields) + rest, |fields|) == Some((fields, rest))
  {
    if fields == [] {
      assert Quoted(fields) + rest == rest;
    } else {
      FieldsRoundTrip(fields[1..], rest);
      FieldStep(fields[0], Quoted(fields[1..]) + rest, |fields|);
      ColumnConcat(EscapeAccessField(fields[0]), Quoted(fields[1..]), rest);
      assert fields == [fields[0]] + fields[1..];
    }
  }

  /** The columns of a combined line; the counts stay text. */
  datatype Columns = Columns(
    remoteAddr: string, timeLocal: string, requestLine: seq<string>, status: string, bytesSent: string,
    texts: seq<string>, durationMs: string)

  function ReadHead(s: string): Option<(string, string, string)> {
    var remote :- Token(s, ' ');
    var addr :- ReadQuoted(remote.0 + "\"");
    var open :- StripPrefix(remote.1, "- - [");
    var time :- Token(open, ']');
    var rest :- StripPrefix(time.1, " ");
    Some((addr.0, time.0, rest))
  }

  function ReadCounts(s: string): Option<(string, string, string)> {
    var status :- Token(s, ' ');
    var bytes :- Token(status.1, ' ');
    Some((status.0, bytes.0, bytes.1))
  }

  function ReadCombined(s: string): Option<Columns> {
    var head :- ReadHead(s);
    var request :- ReadFields(head.2, 1);
    var counts :- ReadCounts(request.1);
    var texts :- ReadFields(counts.2, 5);
    Some(Columns(head.0, head.1, request.0, counts.0, counts.1, texts.0, texts.1))
  }

  lemma {:induction false} EscapeAddsNoBlank(s: string)
    requires ' ' !in s
    ensures ' ' !in EscapeAccessField(s)
  {
    PassesAreOnePass(s);
    if s != "" {
      PassesAreOnePass(s[1..]);
      EscapeAddsNoBlank(s[1..]);
      assert s[0] in s;
    }
  }

  lemma HeadRoundTrip(e: Entry, rest: string)
    requires ' ' !in e.remoteAddr && ']' !in e.timeLocal
    ensures ReadHead(Head(e, rest)) == Some((e.remoteAddr, e.timeLocal, rest))
  {
    var t3 := " " + rest;
    var t2 := e.timeLocal + ([']'] + t3);
    var t1 := "- - [" + t2;
    EscapeAddsNoBlank(e.remoteAddr);
    TokenSplits(EscapeAccessField(e.remoteAddr), ' ', t1);
    QuotedRoundTrip(e.remoteAddr, "");
    assert "\"" + "" == "\"";
    StripConcat("- - [", t2);
    TokenSplits(e.timeLocal, ']', t3);
    StripConcat(" ", rest);
  }

  lemma CountsRoundTrip(e: Entry, rest: string)
    ensures ReadCounts(Counts(e, rest)) == Some((Print(e.status), Print(e.bytesSent), rest))
  {
    TokenSplits(Print(e.status), ' ', Print(e.bytesSent) + ([' '] + rest));
    TokenSplits(Print(e.bytesSent), ' ', rest);
  }

  /** A combined line gives back every column, whatever the client put into its fields; only the address
      must have no blank and the timestamp no closing bracket. */
  lemma CombinedRoundTrip(e: Entry)
    requires ' ' !in e.remoteAddr && ']' !in e.timeLocal
    ensures ReadCombined(FormatCombined(e))
            == Some(Columns(e.remoteAddr, e.timeLocal, [RequestLine(e)], Print(e.status), Print(e.bytesSent),
              TextFields(e), Print(e.durationMs)))
  {
    var t2 := Quoted(TextFields(e)) + Print(e.durationMs);
    var t1 := Counts(e, t2);
    var t0 := Quoted([RequestLine(e)]) + t1;
    RequestLineEscapes(e);
    HeadRoundTrip(e, t0);
    FieldsRoundTrip([RequestLine(e)], t1);
    CountsRoundTrip(e, t2);
    FieldsRoundTrip(TextFields(e), Print(e.durationMs));
  }

  lemma {:induction false} QuotedHasNoBreaks(fields: seq<string>)
    ensures NoBreaks(Quoted(fields))
  {
    if fields != [] {
      EscapedHasNoBreaks(fields[0]);
      QuotedHasNoBreaks(fields[1..]);
    }
  }

  lemma BreaksConcat(x: string, y: string)
    ensures NoBreaks(x + y) <==> NoBreaks(x) && NoBreaks(y)
  {
    if NoBreaks(x + y) {
      forall i | 0 <= i < |x| ensures !Breaks(x[i]) { assert (x + y)[i] == x[i]; }
      forall i | 0 <= i < |y| ensures !Breaks(y[i]) { assert (x + y)[|x| + i] == y[i]; }
    }
  }

  lemma HeadBreaks(e: Entry, rest: string)
    ensures NoBreaks(Head(e, rest)) <==> NoBreaks(e.timeLocal) && NoBreaks(rest)
  {
    EscapedHasNoBreaks(e.remoteAddr);
    BreaksConcat(EscapeAccessField(e.remoteAddr), [' '] + ("- - [" + (e.timeLocal + ([']'] + (" " + rest)))));
    BreaksConcat([' '], "- - [" + (e.timeLocal + ([']'] + (" " + rest))));
    BreaksConcat("- - [", e.timeLocal + ([']'] + (" " + rest)));
    BreaksConcat(e.timeLocal, [']'] + (" " + rest));
    BreaksConcat([']'], " " + rest);
    BreaksConcat(" ", rest);
  }

  /** One entry is one line: no field of the request can break it, only the timestamp could. */
  lemma OneEntryIsOneLine(e: Entry)
    ensures NoBreaks(FormatCombined(e)) <==> NoBreaks(e.timeLocal)
  {
    var t2 := Quoted(TextFields(e)) + Print(e.durationMs);
    var t1 := Counts(e, t2);
    RequestLineEscapes(e);
    HeadBreaks(e, Quoted([RequestLine(e)]) + t1);
    QuotedHasNoBreaks([RequestLine(e)]);
    QuotedHasNoBreaks(TextFields(e));
    BreaksConcat(Quoted([RequestLine(e)]), t1);
    assert NoBreaks(t2) && NoBreaks(t1);
  }

  // ---------- JSON ----------

  ghost predicate IsHex(c: char) { IsDigit(c) || 'a' <= c <= 'f' || 'A' <= c <= 'F' }

  /** The characters between the quotes of a JSON string, by section 7 of RFC 8259. */
  ghost predicate JsonContent(s: string) {
    if s == "" then true
    else if s[0] == '\\' then
      && |s| >= 2
      && if s[1] == 'u' then |s| >= 6 && IsHex(s[2]) && IsHex(s[3]) && IsHex(s[4]) && IsHex(s[5]) && JsonContent(s[6..])
         else s[1] in "\"\\/bfnrt" && JsonContent(s[2..])
    else ' ' <= s[0] && s[0] != '"' && JsonContent(s[1..])
  }

  lemma JsonContentChar(c: char, t: string)
    ensures JsonContent(EscapeChar(c) + t) <==> (' ' <= c || Breaks(c)) && JsonContent(t)
  {
    var u := EscapeChar(c) + t;
    assert u[|EscapeChar(c)|..] == t;
  }

  /** `escape_json` escapes what `escape_access_field` does, which is not everything JSON asks for: the
      result is a JSON string exactly when the value has no other control character. */
  lemma {:induction false} JsonContentIff(s: string)
    ensures JsonContent(EscapeAccessField(s)) <==> forall i :: 0 <= i < |s| ==> ' ' <= s[i] || Breaks(s[i])
  {
    PassesAreOnePass(s);
    if s != "" {
      PassesAreOnePass(s[1..]);
      JsonContentIff(s[1..]);
      JsonContentChar(s[0], Escape(s[1..]));
      assert s == [s[0]] + s[1..];
    }
  }
}
