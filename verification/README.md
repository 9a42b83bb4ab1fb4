# LangChain message conversion, in Dafny

This project models the core of `LangChainModel` in
`genai_processors/contrib/langchain_model.py`: the processor that buffers one
turn of content parts, turns them into LangChain chat messages and hands them
to a chat model.

- **`_convert_to_langchain_messages`** walks the parts in order and converts
  each one into a content entry:
  - a text part becomes a text entry;
  - an image with a non-empty payload becomes an `image_url` entry holding an
    RFC 2397 `data:` URL with a base64 payload (section 4 of RFC 4648);
  - any other part raises `ValueError`.
- **Grouping.** Consecutive entries are buffered. The nested `flush` closure
  emits one message for the buffer whenever the role changes after a
  non-None role, and once more at the end if the buffer is not empty. The message class comes from the
  last role (`system`, `model`, anything else human). A buffer holding one
  text entry collapses to a bare string. The metadata is that of the last
  part.
- **`call`** puts a non-empty system instruction in front as a
  `SystemMessage`, then chooses between the message list and the template
  input as the payload.

## Files

- `wrappers.dfy`: `Option` and `Result`. `Err` stands for a raised exception.
- `base64.dfy`: the RFC 4648 section 4 encoder used for image payloads, and a
  canonical decoder. Decoding undoes encoding and encoding undoes decoding.
- `messages.dfy`: the data model (parts, entries, messages) and the
  conversion of one part. It also holds the reference definition of the
  grouping: the unique partition of the converted parts into maximal runs
  (`Runs`), and one message per run (`Group`). The properties of the grouping
  are proved there.
- `langchain.dfy`: the imperative loop and the `flush` step. The loop is
  proved to compute exactly `ConvertMessages`, the reference conversion. The
  file also holds the class `LangChainModel`, with its constructor and the
  payload preparation of `call`.

**Roles.** A part's role is `Option<string>`, so that the `last_role is not
None` guard of the flush test can be stated. As a consequence, a part
without a role never closes a message: it joins the run of the part after it
(`Messages.NoneRoleNeverClosesRun`). When every part has a role, messages
change exactly where the role changes (`Messages.StringRoleRuns`).

The library's stream-processing engine is not in `langchain_model.py` and is
not modelled.

## Model

| member | source | states |
|---|---|---|
| Base64.Encode | genai_processors/contrib/langchain_model.py:130 | an encoding has 4 characters for every started group of 3 bytes |
| Base64.EncodeAlphabet | genai_processors/contrib/langchain_model.py:130 | an encoding uses only the base64 alphabet and the padding character `=` |
| Base64.DecodeEncode | genai_processors/contrib/langchain_model.py:130 | decoding the base64 text of any bytes gives those bytes back, so the encoding loses nothing |
| Base64.EncodeDecode | genai_processors/contrib/langchain_model.py:130 | every string the canonical decoder accepts is the encoding of what it decodes to |
| Messages.DataUrlDecodes | genai_processors/contrib/langchain_model.py:130-133 | a data URL starts with `data:<mimetype>;base64,`, and the rest decodes to the payload bytes |
| Messages.ConvertPart | genai_processors/contrib/langchain_model.py:127-136 | a part converts iff it is text, or an image with non-empty bytes. Text gives a text entry with the part's text. An image gives the data URL of its mimetype and bytes. Anything else fails with `ValueError("Unsupported mimetype: " + mimetype)` |
| Messages.ImagePartRoundTrip | genai_processors/contrib/langchain_model.py:129-134 | a converted non-text part is an image. Its entry is a URL with the data-URL header, whose payload decodes back to the part's bytes |
| Messages.ConvertAll | genai_processors/contrib/langchain_model.py:126-136 | the parts convert iff each one does. On success there is one tagged entry per part, in order. On failure the error is that of the first failing part, and every part before it converts |
| Messages.Runs | genai_processors/contrib/langchain_model.py:138-141 | the converted parts are split into pieces that concatenate back to them. Each piece is a run (each part continues the previous one: the previous part's role is None, or the two roles are equal). No piece could be joined to the piece before it |
| Messages.RunsUnique | genai_processors/contrib/langchain_model.py:138-141 | any partition into maximal runs is the one `Runs` computes, so the run boundaries are fully determined by the flush test |
| Messages.KindOf | genai_processors/contrib/langchain_model.py:107-110 | role `system` gives SystemMessage, `model` gives AIMessage, and every other role, including None, gives HumanMessage; each as an if-and-only-if |
| Messages.Collapse | genai_processors/contrib/langchain_model.py:111-114 | the content stands for exactly the buffered entries. It is a bare string iff the buffer is a single text entry, so a single image stays a list |
| Messages.Group | genai_processors/contrib/langchain_model.py:104-123 | one message per maximal run. Each message has the class of the run's last role and the metadata of the run's last part. Its content is the run's entries collapsed by the single-text rule; the entries are the run's entries, in order, and never empty |
| Messages.GroupPreservesOrder | genai_processors/contrib/langchain_model.py:126-142 | reading the messages' entries in order gives the parts' entries in input order, one entry per part |
| Messages.GroupCount | genai_processors/contrib/langchain_model.py:138-144 | empty input gives no message; otherwise the count is one more than the number of places where a part does not continue the previous one |
| Messages.StringRoleRuns | genai_processors/contrib/langchain_model.py:138-141 | when every part has a role, all parts of a message share one role and adjacent messages have different roles |
| Messages.NoneRoleNeverClosesRun | genai_processors/contrib/langchain_model.py:138 | every message except the last ends with a part that has a role: a None-role part is absorbed into the following run |
| LangChain.Flush | genai_processors/contrib/langchain_model.py:104-124 | an empty buffer changes nothing. Otherwise exactly one message is appended (class from the last role, content collapsed from the buffer, metadata of the last part, `{}` without a last part) and the buffer is emptied |
| LangChain.ConvertToMessages | genai_processors/contrib/langchain_model.py:84-145 | the loop with its flushes returns exactly the reference conversion: the first conversion error, or the grouping of all converted parts |
| LangChain.LangChainModel.constructor | genai_processors/contrib/langchain_model.py:47-52 | an absent system instruction becomes the empty string. A prompt template is kept only when it is present and non-empty |
| LangChain.LangChainModel.BuildPayload | genai_processors/contrib/langchain_model.py:62-72 | a conversion error propagates. Otherwise a non-empty instruction is inserted at index 0 as a SystemMessage ahead of all converted messages, and an empty one leaves them unchanged. The payload is the template input iff a template is set |

## Left out

- The streaming of the answer through `llm.astream`, with the output parts built from each chunk (lines 74-82), is left out. It is a call into a LangChain chat model over the network.
- The asynchronous consumption of the input stream and the `ProcessorContent` built from it (lines 57-60) are left out: the model takes the already-buffered list of parts.
- `content_api.is_text` and `content_api.is_image` are not part of this model. They are passed in as the two arbitrary predicates of a `MimeKinds` value, so every property holds for whatever they decide.
- LangChain.LangChainModel.BuildPayload: the template payload carries the template string and the messages, not the formatted `{'input': ...}` prompt. `ChatPromptTemplate` and its Jinja templating are library code not part of this model.
- The metadata dictionary is a `map<string, string>`: values of other Python types are not modelled.
- LangChain message objects are reduced to their class, their content and the `metadata` entry of `additional_kwargs`. The message built for the system instruction has no such entry (`None` in the model).
- The content dictionaries (`{'type': 'text', ...}`, `{'type': 'image_url', ...}`) become the two constructors of `Entry`. The single-text test of line 111 becomes `TextEntry?`.
- `_convert_to_langchain_messages` does not read `self`, so it is modelled as the module-level method `LangChain.ConvertToMessages`. The `nonlocal` closure `flush` becomes a method that takes the buffer and the message list and returns their new values.
- The `{}` fallback for a missing last part (line 120) is kept in `LangChain.Flush`, but it is never taken: whenever the buffer is non-empty a part has been seen.
