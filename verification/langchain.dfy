/**
 * The LangChain processor: the loop that turns a buffered turn of content
 * parts into chat messages (`_convert_to_langchain_messages` with its `flush`
 * closure), and the preparation of the model payload in `call`.
 */
module LangChain {
  import opened Wrappers
  import opened Messages

  /**
   * The `flush` closure: when entries are pending, emits one message for them
   * (class from the last role, metadata from the last part) and empties the buffer.
   */
  method Flush(messages: seq<Message>, contentParts: seq<Entry>, lastRole: Option<string>, lastPart: Option<Part>)
    returns (messages': seq<Message>, contentParts': seq<Entry>)
    ensures contentParts' == []
    ensures contentParts == [] ==> messages' == messages
    ensures contentParts != [] ==>
      messages' == messages + [MakeMessage(lastRole, contentParts, if lastPart.Some? then lastPart.value.metadata else map[])]
  {
    messages', contentParts' := messages, contentParts;
    if contentParts != [] {
      var metadata := if lastPart.Some? then lastPart.value.metadata else map[];
      messages' := messages' + [MakeMessage(lastRole, contentParts, metadata)];
      contentParts' := [];
    }
  }

  /**
   * Converts the parts of one turn into chat messages, or fails with the
   * ValueError of the first part whose mimetype is unsupported.
   */
  method ConvertToMessages(kinds: MimeKinds, parts: seq<Part>) returns (r: Result<seq<Message>, Error>)
    ensures r == ConvertMessages(kinds, parts)
  {
    var messages: seq<Message> := [];
    var contentParts: seq<Entry> := [];
    var lastRole: Option<string> := None;
    var lastPart: Option<Part> := None;
    // The converted parts seen so far, the runs already flushed, and where the pending run starts.
    ghost var done: seq<Converted> := [];
    ghost var runs: seq<seq<Converted>> := [];
    ghost var start := 0;
    var k := 0;
    while k < |parts|
      invariant Scanned(kinds, parts, k, done, runs, start, messages, contentParts, lastRole, lastPart)
    {
      var part := parts[k];
      var converted := ConvertPart(kinds, part);
      if converted.Err? {
        FirstFailure(kinds, parts, k, done);
        return Err(converted.error);
      }
      var partContent := converted.value;
      if part.role != lastRole && lastRole.Some? {
        var messages', contentParts' := Flush(messages, contentParts, lastRole, lastPart);
        FlushStep(kinds, parts, k, done, runs, start, messages, contentParts, lastRole, lastPart, messages', contentParts');
        messages, contentParts := messages', contentParts';
        runs, start := runs + [done[start..]], k;
      } else {
        ExtendStep(kinds, parts, k, done, runs, start, messages, contentParts, lastRole, lastPart);
      }
      contentParts := contentParts + [partContent];
      lastRole, lastPart := part.role, Some(part);
      done := done + [Tag(part, partContent)];
      k := k + 1;
    }
    var messages', contentParts' := Flush(messages, contentParts, lastRole, lastPart);
    FinalFlush(kinds, parts, done, runs, start, messages, contentParts, lastRole, lastPart, messages');
    r := Ok(messages');
  }

  /**
   * The state of the conversion loop after the first `k` parts: they all
   * converted (to `done`), the flushed runs and their messages cover
   * `done[..start]`, the buffer holds the entries of the pending run
   * `done[start..]`, and the last role and part are those of part `k - 1`.
   */
  ghost predicate Scanned(kinds: MimeKinds, parts: seq<Part>, k: int, done: seq<Converted>,
                          runs: seq<seq<Converted>>, start: int, messages: seq<Message>,
                          contentParts: seq<Entry>, lastRole: Option<string>, lastPart: Option<Part>)
  {
    && 0 <= start <= k <= |parts|
    && ConvertedPrefix(kinds, parts, k, done)
    && (forall j :: 0 <= j < |runs| ==> runs[j] != [])
    && Flatten(runs) == done[..start]
    && messages == MessagesOf(runs)
    && contentParts == EntriesOf(done[start..])
    && (k == 0 ==> runs == [] && lastRole.None? && lastPart.None?)
    && (k > 0 ==> start < k && lastRole == parts[k - 1].role && lastPart == Some(parts[k - 1])
                  && MaximalRuns(runs + [done[start..]]))
  }

  /** The first `k` parts all convert, and `done` holds them tagged with their roles and metadata. */
  ghost predicate ConvertedPrefix(kinds: MimeKinds, parts: seq<Part>, k: int, done: seq<Converted>) {
    && 0 <= k <= |parts| && |done| == k
    && forall i :: 0 <= i < k ==>
         ConvertPart(kinds, parts[i]).Ok? && done[i] == Tag(parts[i], ConvertPart(kinds, parts[i]).value)
  }

  lemma ConvertedSnoc(kinds: MimeKinds, parts: seq<Part>, k: int, done: seq<Converted>)
    requires ConvertedPrefix(kinds, parts, k, done)
    requires k < |parts| && ConvertPart(kinds, parts[k]).Ok?
    ensures ConvertedPrefix(kinds, parts, k + 1, done + [Tag(parts[k], ConvertPart(kinds, parts[k]).value)])
  {
  }

  // The three step lemmas below take the invariant as the antecedent of their
  // ensures rather than as a requires: a requires of `Scanned` is re-checked
  // conjunct by conjunct at every call inside the loop body, which puts
  // `ConvertToMessages` over the solver's resource limit.

  /** A part whose role differs from a non-None last role: the pending run is flushed and a new one starts. */
  lemma FlushStep(kinds: MimeKinds, parts: seq<Part>, k: nat, done: seq<Converted>,
                  runs: seq<seq<Converted>>, start: int, messages: seq<Message>,
                  contentParts: seq<Entry>, lastRole: Option<string>, lastPart: Option<Part>,
                  messages': seq<Message>, contentParts': seq<Entry>)
    requires k < |parts| && ConvertPart(kinds, parts[k]).Ok?
    requires lastRole.Some? && parts[k].role != lastRole
    requires contentParts' == []
    requires contentParts == [] ==> messages' == messages
    requires contentParts != [] ==>
      messages' == messages + [MakeMessage(lastRole, contentParts, if lastPart.Some? then lastPart.value.metadata else map[])]
    ensures Scanned(kinds, parts, k, done, runs, start, messages, contentParts, lastRole, lastPart) ==>
      var c := Tag(parts[k], ConvertPart(kinds, parts[k]).value);
      Scanned(kinds, parts, k + 1, done + [c], runs + [done[start..]], k, messages',
              contentParts' + [c.entry], parts[k].role, Some(parts[k]))
  {
    if Scanned(kinds, parts, k, done, runs, start, messages, contentParts, lastRole, lastPart) {
      var c := Tag(parts[k], ConvertPart(kinds, parts[k]).value);
      var pending := done[start..];
      ConvertedSnoc(kinds, parts, k, done);
      PendingMessage(kinds, parts, k, done, runs, start, messages, contentParts, lastRole, lastPart);
      CloseRun(runs, done, start);
      assert messages' == MessagesOf(runs + [pending]);
      StartRun(runs, pending, c);
      assert (done + [c])[..k] == done;
      assert (done + [c])[k..] == [c];
      assert contentParts' + [c.entry] == EntriesOf([c]);
    }
  }

  /** A part that keeps the role, or follows a None role: it joins the pending run. */
  lemma ExtendStep(kinds: MimeKinds, parts: seq<Part>, k: nat, done: seq<Converted>,
                   runs: seq<seq<Converted>>, start: int, messages: seq<Message>,
                   contentParts: seq<Entry>, lastRole: Option<string>, lastPart: Option<Part>)
    requires k < |parts| && ConvertPart(kinds, parts[k]).Ok?
    requires !(parts[k].role != lastRole && lastRole.Some?)
    ensures Scanned(kinds, parts, k, done, runs, start, messages, contentParts, lastRole, lastPart) ==>
      var c := Tag(parts[k], ConvertPart(kinds, parts[k]).value);
      Scanned(kinds, parts, k + 1, done + [c], runs, start, messages,
              contentParts + [c.entry], parts[k].role, Some(parts[k]))
  {
    if Scanned(kinds, parts, k, done, runs, start, messages, contentParts, lastRole, lastPart) {
      var c := Tag(parts[k], ConvertPart(kinds, parts[k]).value);
      var pending := done[start..];
      ConvertedSnoc(kinds, parts, k, done);
      assert (done + [c])[start..] == pending + [c];
      assert (done + [c])[..start] == done[..start];
      EntriesOfSnoc(pending, c);
      if k > 0 {
        assert Last(pending) == done[k - 1];
        ExtendRun(runs, pending, c);
      } else {
        assert pending + [c] == [c];
        SnocRun(runs, [c]);
      }
    }
  }

  /** The closing flush turns the state after the last part into the reference conversion. */
  lemma FinalFlush(kinds: MimeKinds, parts: seq<Part>, done: seq<Converted>,
                   runs: seq<seq<Converted>>, start: int, messages: seq<Message>,
                   contentParts: seq<Entry>, lastRole: Option<string>, lastPart: Option<Part>,
                   messages': seq<Message>)
    requires contentParts == [] ==> messages' == messages
    requires contentParts != [] ==>
      messages' == messages + [MakeMessage(lastRole, contentParts, if lastPart.Some? then lastPart.value.metadata else map[])]
    ensures Scanned(kinds, parts, |parts|, done, runs, start, messages, contentParts, lastRole, lastPart) ==> ConvertMessages(kinds, parts) == Ok(messages')
  {
    if Scanned(kinds, parts, |parts|, done, runs, start, messages, contentParts, lastRole, lastPart) {
      FinalGroup(kinds, parts, done, runs, start, messages, contentParts, lastRole, lastPart, messages');
      AllConverted(kinds, parts, done);
    }
  }

  /** After the last part, the flushed messages are the grouping of everything converted. */
  lemma FinalGroup(kinds: MimeKinds, parts: seq<Part>, done: seq<Converted>,
                   runs: seq<seq<Converted>>, start: int, messages: seq<Message>,
                   contentParts: seq<Entry>, lastRole: Option<string>, lastPart: Option<Part>,
                   messages': seq<Message>)
    requires Scanned(kinds, parts, |parts|, done, runs, start, messages, contentParts, lastRole, lastPart)
    requires contentParts == [] ==> messages' == messages
    requires contentParts != [] ==>
      messages' == messages + [MakeMessage(lastRole, contentParts, if lastPart.Some? then lastPart.value.metadata else map[])]
    ensures Group(done) == messages'
  {
    if |parts| == 0 {
      assert Runs(done) == [];
    } else {
      var pending := done[start..];
      var rs := runs + [pending];
      PendingMessage(kinds, parts, |parts|, done, runs, start, messages, contentParts, lastRole, lastPart);
      CloseRun(runs, done, start);
      RunsUnique(rs, done);
      calc {
        Group(done);
        MessagesOf(rs);
        messages + [MessageFor(pending)];
        messages';
      }
    }
  }

  /** Once a part has been seen, the buffer is not empty and flushing it builds the pending run's message. */
  lemma PendingMessage(kinds: MimeKinds, parts: seq<Part>, k: int, done: seq<Converted>,
                       runs: seq<seq<Converted>>, start: int, messages: seq<Message>,
                       contentParts: seq<Entry>, lastRole: Option<string>, lastPart: Option<Part>)
    requires Scanned(kinds, parts, k, done, runs, start, messages, contentParts, lastRole, lastPart)
    requires k > 0
    ensures contentParts != [] && lastPart.Some?
    ensures MessageFor(done[start..]) == MakeMessage(lastRole, contentParts, lastPart.value.metadata)
  {
    assert Last(done[start..]) == done[k - 1];
  }

  /** A failing part after a prefix of convertible parts decides the error of the whole conversion. */
  lemma FirstFailure(kinds: MimeKinds, parts: seq<Part>, k: nat, done: seq<Converted>)
    requires ConvertedPrefix(kinds, parts, k, done)
    requires k < |parts| && ConvertPart(kinds, parts[k]).Err?
    ensures ConvertMessages(kinds, parts) == Err(ConvertPart(kinds, parts[k]).error)
  {
    var r := ConvertAll(kinds, parts);
    var i :| 0 <= i < |parts| && ConvertPart(kinds, parts[i]) == Err(r.error) &&
      forall j :: 0 <= j < i ==> ConvertPart(kinds, parts[j]).Ok?;
    assert i == k;
  }

  /** When every part converts, the conversion is the grouping of the converted parts. */
  lemma AllConverted(kinds: MimeKinds, parts: seq<Part>, done: seq<Converted>)
    requires ConvertedPrefix(kinds, parts, |parts|, done)
    ensures ConvertMessages(kinds, parts) == Ok(Group(done))
  {
    assert ConvertAll(kinds, parts).value == done;
  }

  /** Flushing the pending run adds its message and covers every part seen so far. */
  lemma CloseRun(runs: seq<seq<Converted>>, done: seq<Converted>, start: nat)
    requires start < |done| && Flatten(runs) == done[..start]
    requires forall j :: 0 <= j < |runs| ==> runs[j] != []
    ensures MessagesOf(runs + [done[start..]]) == MessagesOf(runs) + [MessageFor(done[start..])]
    ensures Flatten(runs + [done[start..]]) == done
  {
    MessagesOfSnoc(runs, done[start..]);
    FlattenSnoc(runs, done[start..]);
    assert done[..start] + done[start..] == done;
  }

  /** A part that continues the pending run extends it. */
  lemma ExtendRun(runs: seq<seq<Converted>>, pending: seq<Converted>, c: Converted)
    requires pending != [] && MaximalRuns(runs + [pending]) && Continues(Last(pending), c)
    ensures MaximalRuns(runs + [pending + [c]])
  {
    var rs := runs + [pending];
    DropLastRun(rs);
    assert rs[..|runs|] == runs;
    assert IsRun(pending + [c]) by {
      assert IsRun(rs[|runs|]);
      forall i | 0 < i < |pending + [c]| ensures JoinsAt(pending + [c], i) {
        if i < |pending| {
          assert JoinsAt(pending, i);
        }
      }
    }
    if runs != [] {
      assert SplitsAt(rs, |runs|);
    }
    SnocRun(runs, pending + [c]);
  }

  /** A part that does not continue the pending run starts a new one. */
  lemma StartRun(runs: seq<seq<Converted>>, pending: seq<Converted>, c: Converted)
    requires pending != [] && MaximalRuns(runs + [pending]) && !Continues(Last(pending), c)
    ensures MaximalRuns(runs + [pending] + [[c]])
  {
    SnocRun(runs + [pending], [c]);
  }

  /** What `call` hands to the chat model: the message list, or the template input built from it. */
  datatype Payload =
    | MessageList(messages: seq<Message>)
      /** `{'input': template.format(messages=...)}`; the templating itself is not modelled. */
    | TemplateInput(template: string, messages: seq<Message>)

  /** The processor wrapping a chat model, with its optional system instruction and prompt template. */
  class LangChainModel {
    const systemInstruction: string
    const promptTemplate: Option<string>

    constructor (systemInstruction: Option<string>, promptTemplate: Option<string>)
      ensures this.systemInstruction == if systemInstruction.Some? then systemInstruction.value else ""
      ensures this.promptTemplate.Some? <==> promptTemplate.Some? && promptTemplate.value != ""
      ensures this.promptTemplate.Some? ==> this.promptTemplate == promptTemplate
    {
      this.systemInstruction := if systemInstruction.Some? then systemInstruction.value else "";
      this.promptTemplate := if promptTemplate.Some? && promptTemplate.value != "" then promptTemplate else None;
    }

    /**
     * The part of `call` between buffering the turn and streaming the answer:
     * convert the parts, put the system instruction in front when there is one,
     * and choose the payload.
     */
    method BuildPayload(kinds: MimeKinds, parts: seq<Part>) returns (r: Result<Payload, Error>)
      ensures ConvertMessages(kinds, parts).Err? ==> r == Err(ConvertMessages(kinds, parts).error)
      ensures ConvertMessages(kinds, parts).Ok? ==>
        r.Ok? &&
        (var converted, ms := ConvertMessages(kinds, parts).value, r.value.messages;
         && (systemInstruction == "" ==> ms == converted)
         && (systemInstruction != "" ==>
               && |ms| == |converted| + 1
               && ms[0] == Message(SystemMessage, Text(systemInstruction), None)
               && ms[1..] == converted)
         && (r.value.TemplateInput? <==> promptTemplate.Some?)
         && (r.value.TemplateInput? ==> r.value.template == promptTemplate.value))
    {
      var converted := ConvertToMessages(kinds, parts);
      if converted.Err? {
        return Err(converted.error);
      }
      var msgs := converted.value;
      if systemInstruction != "" {
        msgs := [Message(SystemMessage, Text(systemInstruction), None)] + msgs;
      }
      if promptTemplate.Some? {
        r := Ok(TemplateInput(promptTemplate.value, msgs));
      } else {
        r := Ok(MessageList(msgs));
      }
    }
  }
}
