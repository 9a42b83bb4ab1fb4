/**
 * The values that `LangChainModel._convert_to_langchain_messages` works on:
 * content parts, the content entries it builds from them, and the LangChain
 * chat messages it groups the entries into; with the reference definition of
 * that grouping (one message per maximal run of parts that share a role) and
 * the properties of it.
 */
module Messages {
  import opened Wrappers
  import Base64

  /** A part's metadata dictionary (values are kept as strings here). */
  type Metadata = map<string, string>

  /**
   * A content part. `role` is None for a part that carries no role; `bytes`
   * is empty for a part without binary payload.
   */
  datatype Part = Part(
    role: Option<string>,
    mimetype: string,
    text: string,
    bytes: seq<Base64.byte>,
    metadata: Metadata)

  /** The mimetype tests of the content API, `is_text` and `is_image`. */
  datatype MimeKinds = MimeKinds(isText: string -> bool, isImage: string -> bool)

  /** A content entry: `{'type': 'text', ...}` or `{'type': 'image_url', ...}`. */
  datatype Entry = TextEntry(text: string) | ImageUrlEntry(url: string)

  /** The three LangChain message classes the conversion produces. */
  datatype Kind = HumanMessage | SystemMessage | AIMessage

  /** A message's content: a bare string, or the list of content entries. */
  datatype Content = Text(text: string) | EntryList(entries: seq<Entry>)

  /**
   * A chat message. `metadata` is the value under the 'metadata' key of its
   * additional keyword arguments, None when that key is absent.
   */
  datatype Message = Message(kind: Kind, content: Content, metadata: Option<Metadata>)

  datatype Error = ValueError(message: string)

  /** A part after conversion: its entry, and the role and metadata that grouping reads. */
  datatype Converted = Converted(role: Option<string>, entry: Entry, metadata: Metadata)

  function Last<T>(s: seq<T>): T
    requires s != []
  {
    s[|s| - 1]
  }

  // ---------------------------------------------------------------------------
  // Per-part conversion

  /** The RFC 2397 data URL header for a base64 payload of the given media type. */
  function DataUrlPrefix(mimetype: string): string {
    "data:" + mimetype + ";base64,"
  }

  /** The RFC 2397 data URL carrying `bytes`, base64-encoded, as the given media type. */
  function DataUrl(mimetype: string, bytes: seq<Base64.byte>): string {
    DataUrlPrefix(mimetype) + Base64.Encode(bytes)
  }

  /** A data URL starts with its header, and what follows the header decodes back to the payload. */
  lemma DataUrlDecodes(mimetype: string, bytes: seq<Base64.byte>)
    ensures var prefix, url := DataUrlPrefix(mimetype), DataUrl(mimetype, bytes);
      && |prefix| <= |url| && url[..|prefix|] == prefix
      && Base64.Decode(url[|prefix|..]) == Some(bytes)
  {
    var prefix, payload := DataUrlPrefix(mimetype), Base64.Encode(bytes);
    Base64.DecodeEncode(bytes);
    assert (prefix + payload)[..|prefix|] == prefix && (prefix + payload)[|prefix|..] == payload;
  }

  /**
   * The content entry for one part: text parts become text entries, image
   * parts with a non-empty payload become data URLs, anything else is an
   * unsupported mimetype.
   */
  function ConvertPart(kinds: MimeKinds, p: Part): (r: Result<Entry, Error>)
    ensures r.Ok? <==> kinds.isText(p.mimetype) || (kinds.isImage(p.mimetype) && |p.bytes| > 0)
    ensures r.Err? ==> r.error == ValueError("Unsupported mimetype: " + p.mimetype)
    ensures r.Ok? && kinds.isText(p.mimetype) ==> r.value == TextEntry(p.text)
    ensures r.Ok? && !kinds.isText(p.mimetype) ==> r.value == ImageUrlEntry(DataUrl(p.mimetype, p.bytes))
  {
    if kinds.isText(p.mimetype) then
      Ok(TextEntry(p.text))
    else if kinds.isImage(p.mimetype) && |p.bytes| > 0 then
      Ok(ImageUrlEntry(DataUrl(p.mimetype, p.bytes)))
    else
      Err(ValueError("Unsupported mimetype: " + p.mimetype))
  }

  /** An image part becomes a data URL with the part's mimetype, whose payload decodes back to the part's bytes. */
  lemma ImagePartRoundTrip(kinds: MimeKinds, p: Part)
    requires ConvertPart(kinds, p).Ok? && !kinds.isText(p.mimetype)
    ensures var r, prefix := ConvertPart(kinds, p), DataUrlPrefix(p.mimetype);
      && kinds.isImage(p.mimetype)
      && r.value.ImageUrlEntry?
      && |prefix| <= |r.value.url| && r.value.url[..|prefix|] == prefix
      && Base64.Decode(r.value.url[|prefix|..]) == Some(p.bytes)
  {
    DataUrlDecodes(p.mimetype, p.bytes);
  }

  function Tag(p: Part, e: Entry): Converted {
    Converted(p.role, e, p.metadata)
  }

  /**
   * Converts every part, in order, or fails with the error of the first part
   * that cannot be converted.
   */
  function ConvertAll(kinds: MimeKinds, ps: seq<Part>): (r: Result<seq<Converted>, Error>)
    ensures r.Ok? <==> forall i :: 0 <= i < |ps| ==> ConvertPart(kinds, ps[i]).Ok?
    ensures r.Ok? ==>
      && |r.value| == |ps|
      && forall i :: 0 <= i < |ps| ==> r.value[i] == Tag(ps[i], ConvertPart(kinds, ps[i]).value)
    ensures r.Err? ==>
      exists i :: && 0 <= i < |ps| && ConvertPart(kinds, ps[i]) == Err(r.error)
                  && forall j :: 0 <= j < i ==> ConvertPart(kinds, ps[j]).Ok?
  {
    if ps == [] then Ok([])
    else match ConvertPart(kinds, ps[0])
      case Err(e) => Err(e)
      case Ok(entry) =>
        match ConvertAll(kinds, ps[1..])
        case Err(e) =>
          var i :| 0 <= i < |ps[1..]| && ConvertPart(kinds, ps[1..][i]) == Err(e) &&
            forall j :: 0 <= j < i ==> ConvertPart(kinds, ps[1..][j]).Ok?;
          assert ConvertPart(kinds, ps[i + 1]) == Err(e);
          assert forall j :: 0 <= j < i + 1 ==> ConvertPart(kinds, ps[j]).Ok? by {
            forall j | 0 < j < i + 1 ensures ConvertPart(kinds, ps[j]).Ok? {
              assert ps[j] == ps[1..][j - 1];
            }
          }
          Err(e)
        case Ok(rest) =>
          assert forall i :: 0 < i < |ps| ==> ps[i] == ps[1..][i - 1];
          Ok([Tag(ps[0], entry)] + rest)
  }

  // ---------------------------------------------------------------------------
  // Maximal runs

  /**
   * Whether `next` joins the run that `prev` ends: a new message starts only
   * when the role changes and the previous role is not None.
   */
  predicate Continues(prev: Converted, next: Converted) {
    prev.role.None? || next.role == prev.role
  }

  /** Whether the part at index `i` continues the run of the part before it. */
  predicate JoinsAt(ts: seq<Converted>, i: int)
    requires 0 < i < |ts|
  {
    Continues(ts[i - 1], ts[i])
  }

  predicate IsRun(r: seq<Converted>) {
    r != [] && forall i :: 0 < i < |r| ==> JoinsAt(r, i)
  }

  /** Whether piece `j` could not be joined to the piece before it. */
  predicate SplitsAt(rs: seq<seq<Converted>>, j: int)
    requires 0 < j < |rs| && rs[j - 1] != [] && rs[j] != []
  {
    !Continues(Last(rs[j - 1]), rs[j][0])
  }

  /** Every piece is a non-empty run and no piece could be joined to the one before it. */
  predicate MaximalRuns(rs: seq<seq<Converted>>) {
    && (forall j :: 0 <= j < |rs| ==> IsRun(rs[j]))
    && (forall j :: 0 < j < |rs| ==> SplitsAt(rs, j))
  }

  function Flatten<T>(rs: seq<seq<T>>): seq<T> {
    if rs == [] then [] else rs[0] + Flatten(rs[1..])
  }

  lemma {:induction false} FlattenSnoc<T>(rs: seq<seq<T>>, x: seq<T>)
    ensures Flatten(rs + [x]) == Flatten(rs) + x
  {
    if rs != [] {
      assert (rs + [x])[1..] == rs[1..] + [x];
      FlattenSnoc(rs[1..], x);
    }
  }

  /** The length of the run that starts the sequence. */
  function RunLength(ts: seq<Converted>): (n: nat)
    requires ts != []
    ensures 1 <= n <= |ts|
    ensures forall i :: 0 < i < n ==> JoinsAt(ts, i)
    ensures n < |ts| ==> !JoinsAt(ts, n)
  {
    if |ts| >= 2 && Continues(ts[0], ts[1]) then
      var m := RunLength(ts[1..]);
      assert forall i :: 0 < i < 1 + m ==> JoinsAt(ts, i) by {
        forall i | 0 < i < 1 + m ensures JoinsAt(ts, i) {
          if i > 1 {
            assert JoinsAt(ts[1..], i - 1);
          }
        }
      }
      assert 1 + m < |ts| ==> !JoinsAt(ts, 1 + m) by {
        if 1 + m < |ts| {
          assert !JoinsAt(ts[1..], m);
        }
      }
      1 + m
    else
      1
  }

  lemma PrefixIsRun(ts: seq<Converted>, n: nat)
    requires 0 < n <= |ts| && forall i :: 0 < i < n ==> JoinsAt(ts, i)
    ensures IsRun(ts[..n])
  {
    forall i | 0 < i < n ensures JoinsAt(ts[..n], i) {
      assert JoinsAt(ts, i);
    }
  }

  /** A run followed by maximal runs that it cannot be joined to gives maximal runs. */
  lemma ConsRun(r: seq<Converted>, rest: seq<seq<Converted>>)
    requires IsRun(r) && MaximalRuns(rest)
    requires rest != [] ==> !Continues(Last(r), rest[0][0])
    ensures MaximalRuns([r] + rest)
  {
    var rs := [r] + rest;
    forall j | 0 < j < |rs| ensures IsRun(rs[j]) {
      assert rs[j] == rest[j - 1];
    }
    forall j | 1 < j < |rs| ensures SplitsAt(rs, j) {
      assert SplitsAt(rest, j - 1);
      assert rs[j] == rest[j - 1] && rs[j - 1] == rest[j - 2];
    }
  }

  /** Maximal runs followed by a run that cannot be joined to the last of them give maximal runs. */
  lemma SnocRun(rs: seq<seq<Converted>>, r: seq<Converted>)
    requires MaximalRuns(rs) && IsRun(r)
    requires rs != [] ==> !Continues(Last(Last(rs)), r[0])
    ensures MaximalRuns(rs + [r])
  {
    var rs' := rs + [r];
    forall j | 0 <= j < |rs| ensures IsRun(rs'[j]) {
      assert rs'[j] == rs[j];
    }
    forall j | 0 < j < |rs| ensures SplitsAt(rs', j) {
      assert SplitsAt(rs, j);
      assert rs'[j] == rs[j] && rs'[j - 1] == rs[j - 1];
    }
  }

  lemma DropLastRun(rs: seq<seq<Converted>>)
    requires MaximalRuns(rs) && rs != []
    ensures MaximalRuns(rs[..|rs| - 1])
  {
    var rs' := rs[..|rs| - 1];
    forall j | 0 <= j < |rs'| ensures IsRun(rs'[j]) {
      assert rs'[j] == rs[j];
    }
    forall j | 0 < j < |rs'| ensures SplitsAt(rs', j) {
      assert SplitsAt(rs, j);
    }
  }

  /** The partition of the converted parts into maximal runs, in order. */
  function Runs(ts: seq<Converted>): (rs: seq<seq<Converted>>)
    ensures Flatten(rs) == ts
    ensures MaximalRuns(rs)
    decreases |ts|
  {
    if ts == [] then []
    else
      var n := RunLength(ts);
      var rest := Runs(ts[n..]);
      var rs := [ts[..n]] + rest;
      assert rs[1..] == rest;
      assert ts[..n] + ts[n..] == ts;
      assert rest != [] ==> rest[0] + Flatten(rest[1..]) == ts[n..] && rest[0][0] == ts[n];
      assert n < |ts| ==> !JoinsAt(ts, n);
      PrefixIsRun(ts, n);
      ConsRun(ts[..n], rest);
      rs
  }

  lemma MaximalRunsTail(rs: seq<seq<Converted>>)
    requires MaximalRuns(rs) && rs != []
    ensures MaximalRuns(rs[1..])
  {
    forall j | 0 <= j < |rs[1..]| ensures IsRun(rs[1..][j]) {
      assert rs[1..][j] == rs[j + 1];
    }
    forall j | 0 < j < |rs[1..]| ensures SplitsAt(rs[1..], j) {
      assert SplitsAt(rs, j + 1);
      assert rs[1..][j - 1] == rs[j] && rs[1..][j] == rs[j + 1];
    }
  }

  /** In a partition into maximal runs, the first piece is the run that starts the sequence. */
  lemma FirstRun(rs: seq<seq<Converted>>, ts: seq<Converted>)
    requires MaximalRuns(rs) && Flatten(rs) == ts && rs != []
    ensures ts != [] && |rs[0]| == RunLength(ts) && rs[0] == ts[..|rs[0]|]
    ensures Flatten(rs[1..]) == ts[|rs[0]|..]
  {
    var m := |rs[0]|;
    assert IsRun(rs[0]);
    assert ts == rs[0] + Flatten(rs[1..]);
    assert ts[..m] == rs[0] && ts[m..] == Flatten(rs[1..]);
    var n := RunLength(ts);
    if m < |ts| {
      assert rs[1..] != [];
      assert rs[1] == rs[1..][0];
      assert rs[1][0] == Flatten(rs[1..])[0] == ts[m];
      assert SplitsAt(rs, 1);
    }
    assert m < |ts| ==> !JoinsAt(ts, m);
    assert forall i :: 0 < i < m ==> JoinsAt(ts, i) by {
      forall i | 0 < i < m ensures JoinsAt(ts, i) {
        assert JoinsAt(rs[0], i);
        assert ts[i - 1] == rs[0][i - 1] && ts[i] == rs[0][i];
      }
    }
  }

  /** A partition into maximal runs is unique: it is the one `Runs` computes. */
  lemma {:induction false} RunsUnique(rs: seq<seq<Converted>>, ts: seq<Converted>)
    requires MaximalRuns(rs) && Flatten(rs) == ts
    ensures rs == Runs(ts)
    decreases |rs|
  {
    if rs != [] {
      FirstRun(rs, ts);
      MaximalRunsTail(rs);
      RunsUnique(rs[1..], ts[|rs[0]|..]);
      assert rs == [rs[0]] + rs[1..];
    }
  }

  // ---------------------------------------------------------------------------
  // Messages

  /** The message class for a role: a dictionary lookup that defaults to human. */
  function KindOf(role: Option<string>): (k: Kind)
    ensures k == SystemMessage <==> role == Some("system")
    ensures k == AIMessage <==> role == Some("model")
    ensures k == HumanMessage <==> role != Some("system") && role != Some("model")
  {
    if role == Some("system") then SystemMessage
    else if role == Some("model") then AIMessage
    else HumanMessage
  }

  /** The entries a message content stands for. */
  function ContentEntries(c: Content): seq<Entry> {
    match c
    case Text(t) => [TextEntry(t)]
    case EntryList(es) => es
  }

  /** A single text entry collapses to its bare string; anything else stays a list. */
  function Collapse(es: seq<Entry>): (c: Content)
    ensures ContentEntries(c) == es
    ensures c.Text? <==> |es| == 1 && es[0].TextEntry?
  {
    if |es| == 1 && es[0].TextEntry? then Text(es[0].text) else EntryList(es)
  }

  function MakeMessage(role: Option<string>, entries: seq<Entry>, metadata: Metadata): Message {
    Message(KindOf(role), Collapse(entries), Some(metadata))
  }

  function EntriesOf(ts: seq<Converted>): (es: seq<Entry>)
    ensures |es| == |ts| && forall i :: 0 <= i < |ts| ==> es[i] == ts[i].entry
  {
    seq(|ts|, i requires 0 <= i < |ts| => ts[i].entry)
  }

  lemma EntriesOfSnoc(ts: seq<Converted>, t: Converted)
    ensures EntriesOf(ts + [t]) == EntriesOf(ts) + [t.entry]
  {
  }

  /** The message for one run: class and metadata from its last part, all its entries. */
  function MessageFor(run: seq<Converted>): Message
    requires run != []
  {
    MakeMessage(Last(run).role, EntriesOf(run), Last(run).metadata)
  }

  function MessagesOf(rs: seq<seq<Converted>>): (ms: seq<Message>)
    requires forall j :: 0 <= j < |rs| ==> rs[j] != []
    ensures |ms| == |rs| && forall j :: 0 <= j < |rs| ==> ms[j] == MessageFor(rs[j])
  {
    seq(|rs|, j requires 0 <= j < |rs| && rs[j] != [] => MessageFor(rs[j]))
  }

  lemma MessagesOfSnoc(rs: seq<seq<Converted>>, x: seq<Converted>)
    requires forall j :: 0 <= j < |rs| ==> rs[j] != []
    requires x != []
    ensures MessagesOf(rs + [x]) == MessagesOf(rs) + [MessageFor(x)]
  {
    assert forall j :: 0 <= j < |rs| ==> (rs + [x])[j] == rs[j];
  }

  /**
   * The reference conversion of already-converted parts: one message per
   * maximal run, of the class of the run's last role, carrying the run's
   * entries in order and the metadata of the run's last part.
   */
  function Group(ts: seq<Converted>): (ms: seq<Message>)
    ensures var rs := Runs(ts);
      |ms| == |rs| &&
      forall j :: 0 <= j < |rs| ==>
        && ms[j].kind == KindOf(Last(rs[j]).role)
        && ms[j].metadata == Some(Last(rs[j]).metadata)
        && ms[j].content == Collapse(EntriesOf(rs[j]))
        && ContentEntries(ms[j].content) == EntriesOf(rs[j])
        && ContentEntries(ms[j].content) != []
  {
    MessagesOf(Runs(ts))
  }

  /** What converting a buffered list of parts yields: the messages, or the first error. */
  function ConvertMessages(kinds: MimeKinds, ps: seq<Part>): Result<seq<Message>, Error> {
    match ConvertAll(kinds, ps)
    case Err(e) => Err(e)
    case Ok(ts) => Ok(Group(ts))
  }

  // ---------------------------------------------------------------------------
  // Properties of the grouping

  /** All entries of a message list, message after message. */
  function AllEntries(ms: seq<Message>): seq<Entry> {
    if ms == [] then [] else ContentEntries(ms[0].content) + AllEntries(ms[1..])
  }

  lemma {:induction false} MessagesOfEntries(rs: seq<seq<Converted>>)
    requires forall j :: 0 <= j < |rs| ==> rs[j] != []
    ensures AllEntries(MessagesOf(rs)) == EntriesOf(Flatten(rs))
  {
    if rs != [] {
      var ms := MessagesOf(rs);
      assert ms[1..] == MessagesOf(rs[1..]);
      MessagesOfEntries(rs[1..]);
      assert EntriesOf(rs[0] + Flatten(rs[1..])) == EntriesOf(rs[0]) + EntriesOf(Flatten(rs[1..]));
    }
  }

  /**
   * Order is preserved: every part contributes exactly one entry, and reading
   * the messages' entries in order gives the parts' entries in input order.
   */
  lemma GroupPreservesOrder(ts: seq<Converted>)
    ensures AllEntries(Group(ts)) == EntriesOf(ts)
  {
    MessagesOfEntries(Runs(ts));
  }

  /** The number of places where a part does not continue the run of the part before it. */
  function Breaks(ts: seq<Converted>): nat {
    if |ts| < 2 then 0
    else (if Continues(ts[0], ts[1]) then 0 else 1) + Breaks(ts[1..])
  }

  lemma {:induction false} BreaksAfterRun(ts: seq<Converted>)
    requires ts != []
    ensures var n := RunLength(ts);
      Breaks(ts) == if n < |ts| then 1 + Breaks(ts[n..]) else 0
  {
    if |ts| >= 2 && Continues(ts[0], ts[1]) {
      BreaksAfterRun(ts[1..]);
      assert ts[1..][RunLength(ts[1..])..] == ts[RunLength(ts)..];
    }
  }

  /**
   * Empty input gives no message; otherwise there is one message more than
   * there are run boundaries.
   */
  lemma {:induction false} GroupCount(ts: seq<Converted>)
    ensures |Group(ts)| == if ts == [] then 0 else 1 + Breaks(ts)
    decreases |ts|
  {
    if ts != [] {
      var n := RunLength(ts);
      BreaksAfterRun(ts);
      GroupCount(ts[n..]);
      assert Runs(ts) == [ts[..n]] + Runs(ts[n..]);
    }
  }

  lemma {:induction false} UniformRole(r: seq<Converted>, k: nat)
    requires IsRun(r) && k < |r|
    requires forall i :: 0 <= i < |r| ==> r[i].role.Some?
    ensures r[k].role == r[0].role
  {
    if k > 0 {
      UniformRole(r, k - 1);
      assert JoinsAt(r, k);
    }
  }

  lemma {:induction false} FlattenContains<T>(rs: seq<seq<T>>, j: nat, k: nat)
    requires j < |rs| && k < |rs[j]|
    ensures rs[j][k] in Flatten(rs)
  {
    if j > 0 {
      FlattenContains(rs[1..], j - 1, k);
    }
  }

  /**
   * When every part has a role: all parts of a run share one role, and
   * consecutive runs have different roles, so messages follow role changes
   * exactly.
   */
  lemma StringRoleRuns(ts: seq<Converted>)
    requires forall i :: 0 <= i < |ts| ==> ts[i].role.Some?
    ensures var rs := Runs(ts);
      && (forall j, k :: 0 <= j < |rs| && 0 <= k < |rs[j]| ==> rs[j][k].role == rs[j][0].role)
      && (forall j :: 0 < j < |rs| ==> rs[j][0].role != rs[j - 1][0].role)
  {
    var rs: seq<seq<Converted>> := Runs(ts);
    forall j, k | 0 <= j < |rs| && 0 <= k < |rs[j]| ensures rs[j][k].role == rs[j][0].role {
      forall k' | 0 <= k' < |rs[j]| ensures rs[j][k'].role.Some? {
        FlattenContains(rs, j, k');
      }
      UniformRole(rs[j], k);
    }
    forall j | 0 < j < |rs| ensures rs[j][0].role != rs[j - 1][0].role {
      assert SplitsAt(rs, j);
    }
  }

  /** A part without a role never ends a message unless it is among the last parts. */
  lemma NoneRoleNeverClosesRun(ts: seq<Converted>, j: nat)
    requires j + 1 < |Runs(ts)|
    ensures Last(Runs(ts)[j]).role.Some?
  {
    assert SplitsAt(Runs(ts), j + 1);
  }
}
