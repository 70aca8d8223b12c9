/**
  The pure parts of the consumption-tax (Impuesto al Consumo) chat page:
  rewriting citation markers as superscripts, the source and page lines of
  the sources panel, the processing-flow log, and the assistant message the
  page stores after answering a query.
 */
module ConsumoPage {
  import opened Records
  import opened Text

  // ---------------------------------------------------------------- citation markers

  /** `s` starts with a citation marker `[` digits `]` holding `k` digits. */
  predicate MarkerOfLength(s: string, k: nat) {
    1 <= k && k + 2 <= |s| && s[0] == '[' && AllDigits(s[1..1 + k]) && s[1 + k] == ']'
  }

  /** The length of the leading run of digits. */
  function DigitRun(s: string): (k: nat)
    ensures k <= |s| && AllDigits(s[..k])
    ensures k < |s| ==> !IsDigit(s[k])
  {
    if |s| == 0 || !IsDigit(s[0]) then 0
    else
      var k := 1 + DigitRun(s[1..]);
      assert s[..k] == [s[0]] + s[1..][..k - 1];
      k
  }

  /** The digit count of the marker `s` starts with, if it starts with one. */
  function MarkerAt(s: string): (r: Option<nat>)
    ensures r.Some? ==> MarkerOfLength(s, r.value)
    ensures r.None? ==> forall k: nat :: !MarkerOfLength(s, k)
  {
    if |s| == 0 || s[0] != '[' then None
    else
      var k := DigitRun(s[1..]);
      assert s[1..1 + k] == s[1..][..k];
      if k >= 1 && k + 2 <= |s| && s[1 + k] == ']' then Some(k)
      else
        None
  }

  /** The superscript a marker's digits become: `int(digits)` in brackets. */
  function Superscript(digits: string): string
    requires AllDigits(digits)
  {
    "<sup>[" + NatToString(DigitsValue(digits)) + "]</sup>"
  }

  /** No `[` anywhere in `s`. */
  predicate NoBracket(s: string) {
    forall i :: 0 <= i < |s| ==> s[i] != '['
  }

  /** `re.sub(r'\[(\d+)\]', ...)`: markers found left to right without
      overlap are replaced, everything else is copied. */
  function Superscripts(text: string): (r: string)
    ensures NoBracket(text) ==> r == text
    decreases |text|
  {
    if |text| == 0 then ""
    else
      match MarkerAt(text)
      case Some(k) => Superscript(text[1..1 + k]) + Superscripts(text[k + 2..])
      case None =>
        assert NoBracket(text) ==> NoBracket(text[1..]) by {
          forall i | 0 <= i < |text[1..]| ensures text[1..][i] == text[i + 1] { }
        }
        assert [text[0]] + text[1..] == text;
        [text[0]] + Superscripts(text[1..])
  }

  /** `formatear_texto_con_citas`: the citations themselves are never
      consulted, only whether there are any. */
  function FormatWithCitations(text: string, cites: seq<Citation>): (r: string)
    ensures |cites| == 0 ==> r == text
  {
    if |cites| == 0 then text else Superscripts(text)
  }

  lemma OnlyEmptinessMatters(text: string, c1: seq<Citation>, c2: seq<Citation>)
    requires |c1| == 0 <==> |c2| == 0
    ensures FormatWithCitations(text, c1) == FormatWithCitations(text, c2)
  {
  }

  /** A text with no marker anywhere is left as it is. */
  lemma {:induction false} NoMarkerUnchanged(text: string)
    requires forall i :: 0 <= i < |text| ==> MarkerAt(text[i..]).None?
    ensures Superscripts(text) == text
    decreases |text|
  {
    if |text| > 0 {
      assert MarkerAt(text[0..]).None?;
      assert text[0..] == text;
      forall i | 0 <= i < |text[1..]| ensures MarkerAt(text[1..][i..]).None? {
        assert text[1..][i..] == text[i + 1..];
      }
      NoMarkerUnchanged(text[1..]);
      assert [text[0]] + text[1..] == text;
    }
  }

  /** A text read as a sequence of plain characters and citation markers. */
  datatype Piece = Plain(c: char) | Marker(digits: string)

  /** Every marker piece holds one or more digits. */
  predicate MarkersValid(ps: seq<Piece>) {
    forall i :: 0 <= i < |ps| ==> ps[i].Marker? ==> |ps[i].digits| >= 1 && AllDigits(ps[i].digits)
  }

  /** The pieces are how the scan reads the text: a plain piece never starts
      a marker in the text that follows, so a `[` that opens no marker is
      plain. */
  predicate WellFormed(ps: seq<Piece>) {
    && MarkersValid(ps)
    && forall i :: 0 <= i < |ps| ==> ps[i].Plain? ==> MarkerAt(Written(ps[i..])).None?
  }

  /** The text as written. */
  function Written(ps: seq<Piece>): string {
    if |ps| == 0 then ""
    else
      match ps[0]
      case Plain(c) => [c] + Written(ps[1..])
      case Marker(ds) => "[" + ds + "]" + Written(ps[1..])
  }

  /** The text as shown: each marker replaced by its superscript. */
  function Shown(ps: seq<Piece>): string
    requires MarkersValid(ps)
  {
    if |ps| == 0 then ""
    else
      match ps[0]
      case Plain(c) => [c] + Shown(ps[1..])
      case Marker(ds) => Superscript(ds) + Shown(ps[1..])
  }

  lemma PlainStep(c: char, rest: string)
    requires MarkerAt([c] + rest).None?
    ensures Superscripts([c] + rest) == [c] + Superscripts(rest)
  {
    var text := [c] + rest;
    assert text[1..] == rest;
  }

  lemma MarkerStep(ds: string, rest: string)
    requires |ds| >= 1 && AllDigits(ds)
    ensures Superscripts("[" + ds + "]" + rest) == Superscript(ds) + Superscripts(rest)
  {
    var k := |ds|;
    var text := "[" + ds + "]" + rest;
    assert text[1..] == ds + ("]" + rest);
    DigitRunOf(ds, "]" + rest);
    assert text[1..1 + k] == ds && text[1 + k] == ']';
    assert MarkerAt(text) == Some(k);
    assert text[k + 2..] == rest;
  }

  /** A digit run followed by a non-digit is read whole. */
  lemma DigitRunOf(n: string, rest: string)
    requires AllDigits(n) && |rest| > 0 && !IsDigit(rest[0])
    ensures DigitRun(n + rest) == |n|
  {
    var t := n + rest;
    assert t[|n|] == rest[0];
    assert forall i :: 0 <= i < |n| ==> t[i] == n[i];
  }

  /** The rest of a well-formed piece list is well formed. */
  lemma WellFormedTail(ps: seq<Piece>)
    requires |ps| > 0 && WellFormed(ps)
    ensures WellFormed(ps[1..])
  {
    forall i | 0 <= i < |ps[1..]| ensures ps[1..][i] == ps[i + 1] && ps[1..][i..] == ps[i + 1..] { }
  }

  /** A piece put in front of a well-formed list keeps it well formed when it
      is a valid marker, or a plain character that starts no marker. */
  lemma WellFormedCons(p: Piece, rest: seq<Piece>)
    requires WellFormed(rest)
    requires p.Marker? ==> |p.digits| >= 1 && AllDigits(p.digits)
    requires p.Plain? ==> MarkerAt(Written([p] + rest)).None?
    ensures WellFormed([p] + rest)
  {
    var ps := [p] + rest;
    assert ps[0..] == ps;
    forall i | 1 <= i < |ps| ensures ps[i] == rest[i - 1] && ps[i..] == rest[i - 1..] { }
  }

  /** Formatting replaces exactly the markers, in order, and keeps every
      other character, including a `[` that opens no marker, in place. */
  lemma {:induction false} MarkersBecomeSuperscripts(ps: seq<Piece>)
    requires WellFormed(ps)
    ensures Superscripts(Written(ps)) == Shown(ps)
  {
    if |ps| > 0 {
      WellFormedTail(ps);
      MarkersBecomeSuperscripts(ps[1..]);
      match ps[0]
      case Plain(c) =>
        assert ps[0..] == ps;
        PlainStep(c, Written(ps[1..]));
      case Marker(ds) =>
        MarkerStep(ds, Written(ps[1..]));
    }
  }

  /** The reading of a text into pieces that the scan makes. */
  function Pieces(text: string): (ps: seq<Piece>)
    ensures WellFormed(ps) && Written(ps) == text
    decreases |text|
  {
    if |text| == 0 then []
    else
      match MarkerAt(text)
      case Some(k) =>
        var rest := Pieces(text[k + 2..]);
        MarkerCase(text, k, rest);
        [Marker(text[1..1 + k])] + rest
      case None =>
        var rest := Pieces(text[1..]);
        PlainCase(text, rest);
        [Plain(text[0])] + rest
  }

  /** A text that starts with a marker reads as that marker and the pieces
      of what follows it. */
  lemma MarkerCase(text: string, k: nat, rest: seq<Piece>)
    requires MarkerAt(text) == Some(k)
    requires WellFormed(rest) && Written(rest) == text[k + 2..]
    ensures WellFormed([Marker(text[1..1 + k])] + rest) && Written([Marker(text[1..1 + k])] + rest) == text
  {
    var ds := text[1..1 + k];
    assert text == "[" + ds + "]" + text[k + 2..];
    var ps := [Marker(ds)] + rest;
    assert ps[0] == Marker(ds) && ps[1..] == rest;
    WellFormedCons(Marker(ds), rest);
  }

  /** A text that starts with no marker reads as its first character and
      the pieces of the rest. */
  lemma PlainCase(text: string, rest: seq<Piece>)
    requires |text| > 0 && MarkerAt(text).None?
    requires WellFormed(rest) && Written(rest) == text[1..]
    ensures WellFormed([Plain(text[0])] + rest) && Written([Plain(text[0])] + rest) == text
  {
    var ps := [Plain(text[0])] + rest;
    assert ps[0] == Plain(text[0]) && ps[1..] == rest;
    assert text == [text[0]] + text[1..];
    WellFormedCons(Plain(text[0]), rest);
  }

  /** Every text is covered: formatting it shows its markers as superscripts
      and every other character as written. */
  lemma EveryTextFormatted(text: string)
    ensures Superscripts(text) == Shown(Pieces(text))
  {
    MarkersBecomeSuperscripts(Pieces(text));
  }

  /** Leading zeros inside a marker are dropped: `[007]` shows as `[7]`. */
  lemma LeadingZerosDropped(m: nat, n: nat)
    ensures var digits := Zeros(m) + NatToString(n);
            Superscripts("[" + digits + "]") == "<sup>[" + NatToString(n) + "]</sup>"
  {
    ZeroPaddedReprint(m, n);
    ReprintedMarker(Zeros(m) + NatToString(n), NatToString(n));
  }

  lemma ReprintedMarker(ds: string, numeral: string)
    requires |ds| >= 1 && AllDigits(ds) && NatToString(DigitsValue(ds)) == numeral
    ensures Superscripts("[" + ds + "]") == "<sup>[" + numeral + "]</sup>"
  {
    MarkerStep(ds, "");
    assert "[" + ds + "]" + "" == "[" + ds + "]";
    assert Superscripts("") == "";
  }

  // ---------------------------------------------------------------- sources panel

  /** Python truthiness of `page and page != 0`. */
  predicate PageShown(page: Option<PageValue>) {
    match page
    case None => false
    case Some(PageNumber(n)) => n != 0
    case Some(PageLabel(s)) => s != ""
  }

  /** `str(page)`. */
  function PageText(v: PageValue): string {
    match v
    case PageNumber(n) => IntToString(n)
    case PageLabel(s) => s
  }

  const PagePrefix := " (P\U{E1}g. "

  function PageInfo(page: Option<PageValue>): (r: string)
    ensures r == "" <==> page.None? || page == Some(PageNumber(0)) || page == Some(PageLabel(""))
    ensures r != "" ==> r == PagePrefix + PageText(page.value) + ")"
  {
    if PageShown(page) then PagePrefix + PageText(page.value) + ")" else ""
  }

  /** A positive page number is shown as its decimal numeral, which reads
      back as the same number. */
  lemma PageNumberReadsBack(n: nat)
    requires n > 0
    ensures var r := PageInfo(Some(PageNumber(n)));
            |r| > |PagePrefix| + 1
            && r[..|PagePrefix|] == PagePrefix
            && AllDigits(r[|PagePrefix|..|r| - 1])
            && DigitsValue(r[|PagePrefix|..|r| - 1]) == n
  {
    var r := PageInfo(Some(PageNumber(n)));
    assert r == PagePrefix + NatToString(n) + ")";
    assert r[|PagePrefix|..|r| - 1] == NatToString(n);
    ParsePrinted(n);
  }

  /** `doc.metadata.get('source', f'Documento {i+1}')`. */
  function SourceName(doc: Document, i: nat): (r: string)
    ensures doc.source.Some? ==> r == doc.source.value
    ensures doc.source.None? ==> r == "Documento " + NatToString(i + 1)
  {
    match doc.source
    case Some(s) => s
    case None => "Documento " + NatToString(i + 1)
  }

  const HeadingPrefix := "**Fuente "

  /** The heading line of the i-th (zero-based) source. */
  function SourceLine(doc: Document, i: nat): string {
    HeadingPrefix + NatToString(i + 1) + ":** `" + (SourceName(doc, i) + PageInfo(doc.page)) + "`"
  }

  /** One heading per document, in retrieval order. */
  function SourceLines(docs: seq<Document>): (lines: seq<string>)
    ensures |lines| == |docs|
  {
    seq(|docs|, i requires 0 <= i < |docs| => SourceLine(docs[i], i))
  }

  /** The i-th heading is the prefix, then a numeral without leading zeros
      that reads back as i + 1 and is the whole digit run there, then the
      source name and page suffix between backquotes. */
  lemma SourceHeading(docs: seq<Document>, i: nat)
    requires i < |docs|
    ensures var h := SourceLines(docs)[i];
            var n := NatToString(i + 1);
            && h == HeadingPrefix + n + ":** `" + (SourceName(docs[i], i) + PageInfo(docs[i].page)) + "`"
            && n[0] != '0' && AllDigits(n) && DigitsValue(n) == i + 1
            && |h| > |HeadingPrefix| && DigitRun(h[|HeadingPrefix|..]) == |n|
  {
    HeadingNumeral(NatToString(i + 1), SourceName(docs[i], i) + PageInfo(docs[i].page));
    ParsePrinted(i + 1);
  }

  /** The numeral of a heading is the whole digit run after its prefix. */
  lemma HeadingNumeral(n: string, name: string)
    requires |n| >= 1 && AllDigits(n)
    ensures var h := HeadingPrefix + n + ":** `" + name + "`";
            |h| > |HeadingPrefix| && DigitRun(h[|HeadingPrefix|..]) == |n|
  {
    var rest := ":** `" + name + "`";
    var h := HeadingPrefix + n + ":** `" + name + "`";
    assert h[|HeadingPrefix|..] == n + rest;
    DigitRunOf(n, rest);
  }

  // ---------------------------------------------------------------- processing flow

  function Bullet(step: string): string {
    "- " + step
  }

  /** The steps recorded after `update_flow` was called on each of `calls`, in order. */
  function Recorded(calls: seq<string>): (steps: seq<string>)
    ensures |steps| == |calls|
  {
    if |calls| == 0 then [] else Recorded(calls[..|calls| - 1]) + [Bullet(calls[|calls| - 1])]
  }

  /** Each call's text as a bullet line. */
  function Bulleted(calls: seq<string>): string {
    if |calls| == 0 then "" else "- " + calls[0] + "\n" + Bulleted(calls[1..])
  }

  /** `update_flow`: record the step and rebuild the text shown while processing. */
  method UpdateFlow(steps: seq<string>, step: string) returns (steps': seq<string>, shown: string)
    ensures steps' == steps + [Bullet(step)]
    ensures shown == "**Procesando:**\n" + Lines(steps')
  {
    steps' := steps + [Bullet(step)];
    var flowText := "";
    var i := 0;
    while i < |steps'|
      invariant 0 <= i <= |steps'|
      invariant flowText == Lines(steps'[..i])
    {
      LinesAppend(steps'[..i], [steps'[i]]);
      assert steps'[..i + 1] == steps'[..i] + [steps'[i]];
      assert Lines([steps'[i]]) == steps'[i] + "\n" + Lines([]);
      flowText := flowText + steps'[i] + "\n";
      i := i + 1;
    }
    assert steps'[..|steps'|] == steps';
    shown := "**Procesando:**\n" + flowText;
  }

  /** After any sequence of calls the flow text is their bullet lines in
      call order, and the stored flow is the same lines joined by breaks. */
  lemma FlowTextAfterCalls(calls: seq<string>)
    ensures Lines(Recorded(calls)) == Bulleted(calls)
    ensures |calls| > 0 ==> Lines(Recorded(calls)) == Join(Recorded(calls), "\n") + "\n"
  {
    RecordedLines(calls);
    if |calls| > 0 {
      LinesIsJoinPlusBreak(Recorded(calls));
    }
  }

  lemma {:induction false} RecordedLines(calls: seq<string>)
    ensures Lines(Recorded(calls)) == Bulleted(calls)
  {
    if |calls| > 0 {
      var init := calls[..|calls| - 1];
      var last := calls[|calls| - 1];
      RecordedLines(init);
      LinesAppend(Recorded(init), [Bullet(last)]);
      assert Lines([Bullet(last)]) == Bullet(last) + "\n" + Lines([]);
      BulletedAppend(init, last);
      assert init + [last] == calls;
    }
  }

  lemma {:induction false} BulletedAppend(init: seq<string>, last: string)
    ensures Bulleted(init + [last]) == Bulleted(init) + "- " + last + "\n"
  {
    if |init| == 0 {
      assert init + [last] == [last];
      assert [last][1..] == [];
    } else {
      assert (init + [last])[1..] == init[1..] + [last];
      BulletedAppend(init[1..], last);
    }
  }

  // ---------------------------------------------------------------- answering a query

  /** What the reranked retrieval did: returned documents or raised. */
  datatype Retrieval = Retrieved(docs: seq<Document>) | RetrievalRaised(message: string)

  /** The progress steps `update_flow` is called with while answering. */
  datatype Step =
    | Starting | Analysing | RunningFlow | Retrieving
    | NothingFound
    | Found(count: nat) | Reranked | Generating
    | CheckingGrounding | CheckingRelevance | AddingCitations(count: nat) | Succeeded
    | Failed(message: string)

  /** The text passed to `update_flow` for each step. */
  function StepText(step: Step): string {
    match step
    case Starting => "\U{1F504} Iniciando procesamiento de la consulta sobre Impuesto al Consumo..."
    case Analysing => "\U{1F9E0} Analizando la consulta..."
    case RunningFlow => "\U{1F50D} Ejecutando flujo RAG avanzado..."
    case Retrieving => "\U{1F50D} Recuperando documentos iniciales de Pinecone..."
    case NothingFound => "\U{274C} No se encontraron documentos relevantes en Pinecone"
    case Found(n) => "\U{1F4DD} Encontrados " + NatToString(n) + " documentos relevantes"
    case Reranked => "\U{1F504} Aplicado reranking para mejorar la relevancia"
    case Generating => "\U{270D}\U{FE0F} Generando respuesta especializada en Impuesto al Consumo..."
    case CheckingGrounding => "\U{1F50E} Verificando que no haya alucinaciones..."
    case CheckingRelevance => "\U{2705} Verificando que la respuesta aborde la consulta..."
    case AddingCitations(n) => "\U{1F4CC} A\U{F1}adiendo " + NatToString(n) + " citas a la respuesta..."
    case Succeeded => "\U{2728} Respuesta sobre Impuesto al Consumo generada con \U{E9}xito!"
    case Failed(e) => "\U{274C} Error al consultar documentos de Impuesto al Consumo o generar respuesta: " + e
  }

  const Opening: seq<Step> := [Starting, Analysing, RunningFlow, Retrieving]

  const NothingFoundResponse :=
    "Lo siento, no encontr\U{E9} informaci\U{F3}n relevante sobre tu consulta en la base de conocimiento "
    + "de Impuesto al Consumo. Por favor, intenta reformular tu pregunta o consulta otra base de conocimiento."
  const ErrorResponsePrefix := "Lo siento, ocurri\U{F3} un error: "

  /** The steps after a successful generation; the citation step only when
      the generator gave citations. */
  function AnsweredSteps(cites: seq<Citation>): seq<Step> {
    [CheckingGrounding, CheckingRelevance]
    + (if |cites| > 0 then [AddingCitations(|cites|)] else [])
    + [Succeeded]
  }

  /** The `update_flow` calls made while answering, in order: the four
      opening calls, and a last call that names how the query ended. */
  function Calls(retrieval: Retrieval, gen: Generated): (calls: seq<Step>)
    ensures |calls| >= 5 && calls[..4] == Opening
    ensures calls[|calls| - 1].Failed? <==>
              retrieval.RetrievalRaised? || (|retrieval.docs| > 0 && gen.Raised?)
    ensures calls[|calls| - 1] == NothingFound <==> retrieval == Retrieved([])
    ensures calls[|calls| - 1] == Succeeded <==>
              retrieval.Retrieved? && |retrieval.docs| > 0 && gen.Answered?
  {
    match retrieval
    case RetrievalRaised(e) => Opening + [Failed(e)]
    case Retrieved(docs) =>
      if |docs| == 0 then Opening + [NothingFound]
      else
        match gen
        case Raised(e) => Opening + [Found(|docs|), Reranked, Generating, Failed(e)]
        case Answered(reply) =>
          Opening + [Found(|docs|), Reranked, Generating] + AnsweredSteps(CitationsOf(reply))
  }

  /** The texts of a sequence of steps. */
  function Texts(calls: seq<Step>): (texts: seq<string>)
    ensures |texts| == |calls|
    ensures forall i :: 0 <= i < |calls| ==> texts[i] == StepText(calls[i])
  {
    seq(|calls|, i requires 0 <= i < |calls| => StepText(calls[i]))
  }

  /** The assistant message stored in the chat history. */
  function AssistantMessage(text: string, docs: seq<Document>, flowText: string, cites: seq<Citation>): (m: Dict)
    ensures m.Keys == {role, content, documents, flow, citations}
    ensures m[role] == Str("assistant") && m[content] == Str(text) && m[documents] == Docs(docs)
    ensures m[flow] == Str(flowText) && m[citations] == Cites(cites)
  {
    map[role := Str("assistant"), content := Str(text), documents := Docs(docs),
        flow := Str(flowText), citations := Cites(cites)]
  }

  /** The response text, documents and citations a query ends with. */
  datatype Ending = Ending(response: string, docs: seq<Document>, cites: seq<Citation>)

  /** The ending agrees with the last flow step: an error step stores the
      error response, the not-found step the not-found response, both with
      no documents or citations; the success step stores the reply and
      the retrieved documents. */
  function EndingOf(retrieval: Retrieval, gen: Generated): (e: Ending)
    ensures var calls := Calls(retrieval, gen);
            var last := calls[|calls| - 1];
            && (last.Failed? ==> e == Ending(ErrorResponsePrefix + last.message, [], []))
            && (last == NothingFound ==> e == Ending(NothingFoundResponse, [], []))
            && (last == Succeeded ==>
                  e == Ending(gen.reply.text, retrieval.docs, CitationsOf(gen.reply)) && |e.docs| > 0)
  {
    match retrieval
    case RetrievalRaised(e) => Ending(ErrorResponsePrefix + e, [], [])
    case Retrieved(docs) =>
      if |docs| == 0 then Ending(NothingFoundResponse, [], [])
      else
        match gen
        case Raised(e) => Ending(ErrorResponsePrefix + e, [], [])
        case Answered(reply) => Ending(reply.text, docs, CitationsOf(reply))
  }

  /** Answering one query: the stored message and the recorded flow steps. */
  datatype Turn = Turn(message: Dict, steps: seq<string>)

  function Answer(retrieval: Retrieval, gen: Generated): (t: Turn)
    ensures t.message.Keys == {role, content, documents, flow, citations}
    ensures t.message[role] == Str("assistant")
    ensures t.steps == Recorded(Texts(Calls(retrieval, gen)))
    ensures t.message[flow] == Str(Join(t.steps, "\n"))
  {
    var steps := Recorded(Texts(Calls(retrieval, gen)));
    var e := EndingOf(retrieval, gen);
    Turn(AssistantMessage(e.response, e.docs, Join(steps, "\n"), e.cites), steps)
  }

  /** The calls made while answering: the four opening calls, then one
      call per stage reached, the last naming how the query ended. */
  lemma CallsShape(retrieval: Retrieval, gen: Generated)
    ensures var calls := Calls(retrieval, gen);
            && |calls| >= 5 && calls[..4] == Opening
            && (retrieval.RetrievalRaised? ==> calls == Opening + [Failed(retrieval.message)])
            && (retrieval == Retrieved([]) ==> calls == Opening + [NothingFound])
            && (retrieval.Retrieved? && |retrieval.docs| > 0 ==>
                  calls[4..7] == [Found(|retrieval.docs|), Reranked, Generating])
            && (retrieval.Retrieved? && |retrieval.docs| > 0 && gen.Raised? ==>
                  |calls| == 8 && calls[7] == Failed(gen.message))
            && (retrieval.Retrieved? && |retrieval.docs| > 0 && gen.Answered? ==>
                  |calls| == (if |CitationsOf(gen.reply)| > 0 then 11 else 10)
                  && calls[|calls| - 1] == Succeeded
                  && (AddingCitations(|CitationsOf(gen.reply)|) in calls <==> |CitationsOf(gen.reply)| > 0))
            && (calls[|calls| - 1].Failed? <==>
                  retrieval.RetrievalRaised? || (|retrieval.docs| > 0 && gen.Raised?))
  {
  }

  /** The recorded steps are the bullets of the calls, one per call, in order. */
  lemma AnswerSteps(retrieval: Retrieval, gen: Generated)
    ensures var t := Answer(retrieval, gen);
            var calls := Calls(retrieval, gen);
            && |t.steps| == |calls|
            && (forall i :: 0 <= i < |calls| ==> t.steps[i] == Bullet(StepText(calls[i])))
  {
    RecordedTexts(Calls(retrieval, gen));
  }

  /** Recording the texts of some steps gives their bullets, one per step. */
  lemma RecordedTexts(calls: seq<Step>)
    ensures |Recorded(Texts(calls))| == |calls|
    ensures forall i :: 0 <= i < |calls| ==> Recorded(Texts(calls))[i] == Bullet(StepText(calls[i]))
  {
    RecordedBullets(Texts(calls));
  }

  lemma RecordedBullets(calls: seq<string>)
    ensures forall i :: 0 <= i < |calls| ==> Recorded(calls)[i] == Bullet(calls[i])
  {
    RecordedPrefix([], calls);
    assert [] + calls == calls;
  }

  /** A failed retrieval, an empty retrieval and a failed generation all
      store a message with no documents and no citations. */
  lemma AnswerOnFailure(retrieval: Retrieval, gen: Generated)
    requires retrieval.RetrievalRaised? || retrieval == Retrieved([]) || gen.Raised?
    ensures var m := Answer(retrieval, gen).message;
            && m[documents] == Docs([]) && m[citations] == Cites([])
            && (retrieval.RetrievalRaised? ==> m[content] == Str(ErrorResponsePrefix + retrieval.message))
            && (retrieval == Retrieved([]) ==> m[content] == Str(NothingFoundResponse))
            && (retrieval.Retrieved? && |retrieval.docs| > 0 ==> m[content] == Str(ErrorResponsePrefix + gen.message))
  {
  }

  /** An answered query stores the raw generated text, the retrieved
      documents and the generator's citations (empty when it gave none). */
  lemma AnswerOnSuccess(docs: seq<Document>, reply: Reply)
    requires |docs| > 0
    ensures var m := Answer(Retrieved(docs), Answered(reply)).message;
            && m[content] == Str(reply.text)
            && m[documents] == Docs(docs)
            && m[citations] == Cites(CitationsOf(reply))
            && (reply.citations.None? ==> m[citations] == Cites([]))
  {
  }

  /** What is shown while answering: the generated text formatted with its
      citations when there are any, otherwise the response as it is. An
      error or not-found response is never formatted. */
  function LiveContent(retrieval: Retrieval, gen: Generated): (r: string)
    ensures var calls := Calls(retrieval, gen);
            var last := calls[|calls| - 1];
            && (last.Failed? ==> r == ErrorResponsePrefix + last.message)
            && (last == NothingFound ==> r == NothingFoundResponse)
            && (last == Succeeded && |CitationsOf(gen.reply)| > 0 ==> r == Superscripts(gen.reply.text))
            && (last == Succeeded && |CitationsOf(gen.reply)| == 0 ==> r == gen.reply.text)
  {
    var e := EndingOf(retrieval, gen);
    if |e.cites| > 0 then FormatWithCitations(e.response, e.cites) else e.response
  }

  /** The stored `content` text. */
  function ContentOf(m: Dict): string {
    if content in m && m[content].Str? then m[content].s else ""
  }

  /** What the chat history shows for a stored message: an assistant
      message with citations is formatted, anything else is shown as stored. */
  function HistoryContent(m: Dict): (r: string)
    ensures !(role in m && m[role] == Str("assistant")) ==> r == ContentOf(m)
    ensures !(citations in m && m[citations].Cites? && |m[citations].cites| > 0) ==> r == ContentOf(m)
    ensures (role in m && m[role] == Str("assistant") && citations in m && m[citations].Cites? && |m[citations].cites| > 0)
              ==> r == Superscripts(ContentOf(m))
    ensures NoBracket(ContentOf(m)) ==> r == ContentOf(m)
  {
    var text := ContentOf(m);
    if role in m && m[role] == Str("assistant") && citations in m && m[citations].Cites? && |m[citations].cites| > 0
    then FormatWithCitations(text, m[citations].cites)
    else text
  }

  /** Re-displaying a stored answer shows exactly what was shown when it was
      produced, in every branch. */
  lemma HistoryShowsWhatWasShown(retrieval: Retrieval, gen: Generated)
    ensures HistoryContent(Answer(retrieval, gen).message) == LiveContent(retrieval, gen)
  {
  }

  /** Recording is compositional: the steps of a prefix of the calls are a
      prefix of the steps. */
  lemma {:induction false} RecordedPrefix(a: seq<string>, b: seq<string>)
    ensures Recorded(a + b)[..|a|] == Recorded(a)
    ensures forall i :: 0 <= i < |b| ==> Recorded(a + b)[|a| + i] == Bullet(b[i])
    decreases |b|
  {
    if |b| == 0 {
      assert a + b == a;
    } else {
      var init := b[..|b| - 1];
      assert (a + b)[..|a + b| - 1] == a + init;
      RecordedPrefix(a, init);
    }
  }

  /** The flow text shown last while processing is the stored flow plus a
      final line break. */
  lemma ShownFlowMatchesStored(retrieval: Retrieval, gen: Generated)
    ensures Lines(Answer(retrieval, gen).steps) == Answer(retrieval, gen).message[flow].s + "\n"
  {
    var texts := Texts(Calls(retrieval, gen));
    StoredFlow(Answer(retrieval, gen), texts);
  }

  lemma StoredFlow(t: Turn, texts: seq<string>)
    requires |texts| > 0 && t.steps == Recorded(texts)
    requires flow in t.message && t.message[flow] == Str(Join(t.steps, "\n"))
    ensures Lines(t.steps) == t.message[flow].s + "\n"
  {
    FlowTextAfterCalls(texts);
  }
}
