/** The DocReader transport: the streaming and the unary call of the server, and
    the client that consumes either.  Unit decoding and the source-contract check
    are the same function on both paths and are parameters here. */
module DocStream {
  import opened Wrappers

  datatype Image = Image(filename: string, originalRef: string, mimeType: string, storageKey: string, data: seq<int>)

  // ---------- the wire ----------

  datatype Meta<+P> = Meta(markdown: string, error: string, metadata: map<string, string>, imageCount: nat,
                           units: seq<P>)
  datatype Payload<+P> = MetaFrame(meta: Meta<P>) | ImageFrame(image: Image)
  type Frame<+P> = Option<Payload<P>>
  datatype ReadResponse<+P> = ReadResponse(markdown: string, error: string, images: seq<Image>,
                                           metadata: map<string, string>, units: seq<P>)

  // ---------- the client ----------

  datatype Code =
    | Unimplemented | CancelledCode | UnavailableCode | DeadlineExceeded | Aborted | ResourceExhausted
    | Internal | Unknown | OtherCode
  datatype StreamErr = StreamErr(code: Option<Code>, msg: string)
  datatype ReadError = Cancelled | Transient(msg: string) | InvalidResponse(msg: string)

  datatype ReadResult<+U> = ReadResult(markdown: string, error: string, images: seq<Image>,
                                       metadata: map<string, string>, units: seq<U>)

  type Decoder<!P, U> = seq<P> -> Result<seq<U>, string>
  type Contract<!U> = ReadResult<U> -> Option<string>

  function Classified(e: StreamErr): ReadError {
    match e.code
    case Some(CancelledCode) => Cancelled
    case Some(UnavailableCode) | Some(DeadlineExceeded) | Some(Aborted) | Some(ResourceExhausted)
       | Some(Internal) | Some(Unknown) => Transient(e.msg)
    case _ => InvalidResponse(e.msg)
  }

  /** Which failures are final and which may be tried again. */
  lemma ErrorClasses(e: StreamErr)
    ensures Classified(e) == Cancelled <==> e.code == Some(CancelledCode)
    ensures Classified(e) == Transient(e.msg) <==>
            e.code.Some? && e.code.value in {UnavailableCode, DeadlineExceeded, Aborted, ResourceExhausted, Internal,
                                             Unknown}
    ensures Classified(e) == InvalidResponse(e.msg) <==>
            e.code.None? || e.code.value in {Unimplemented, OtherCode}
  {
  }

  /** What the client finds next on the stream; no further event is its end.  A
      cancelled token is noticed before anything else, even by a complete read. */
  datatype Event<+P> = Message(frame: Frame<P>) | Status(error: StreamErr) | IdleTimeout | CancelRequested

  datatype Progress<+U> = Progress(result: ReadResult<U>, gotMeta: bool, expected: Option<nat>)

  function Start<U>(): Progress<U> { Progress(ReadResult("", "", [], map[], []), false, None) }

  function ApplyFrame<P, U>(p: Progress<U>, frame: Frame<P>, decode: Decoder<P, U>): Result<Progress<U>, StreamErr> {
    match frame
    case None => Ok(p)
    case Some(ImageFrame(image)) => Ok(p.(result := p.result.(images := p.result.images + [image])))
    case Some(MetaFrame(meta)) =>
      match decode(meta.units)
      case Err(msg) => Err(StreamErr(None, msg))
      case Ok(units) =>
        var result := p.result.(markdown := meta.markdown, error := meta.error,
                                metadata := p.result.metadata + meta.metadata, units := units);
        Ok(Progress(result, true, if meta.imageCount > 0 then Some(meta.imageCount) else None))
  }

  predicate Complete<U>(p: Progress<U>) {
    p.gotMeta && p.expected.Some? && |p.result.images| >= p.expected.value
  }

  /** After the loop: a metadata frame, enough images and a valid contract. */
  function Finish<U>(p: Progress<U>, contract: Contract<U>): Result<ReadResult<U>, StreamErr> {
    if !p.gotMeta then Err(StreamErr(Some(UnavailableCode), "no metadata frame"))
    else if p.expected.Some? && |p.result.images| < p.expected.value
    then Err(StreamErr(Some(UnavailableCode), "incomplete"))
    else match contract(p.result)
      case Some(msg) => Err(StreamErr(None, msg))
      case None => Ok(p.result)
  }

  function StreamRead<P, U>(events: seq<Event<P>>, p: Progress<U>, decode: Decoder<P, U>, contract: Contract<U>)
    : Result<ReadResult<U>, StreamErr>
  {
    if events != [] && events[0].CancelRequested? then Err(StreamErr(Some(CancelledCode), "cancelled"))
    else if Complete(p) || events == [] then Finish(p, contract)
    else match events[0]
      case IdleTimeout => Err(StreamErr(Some(DeadlineExceeded), "frame timeout"))
      case Status(error) => Err(error)
      case Message(frame) =>
        match ApplyFrame(p, frame, decode)
        case Err(error) => Err(error)
        case Ok(next) => StreamRead(events[1..], next, decode, contract)
  }

  /** The receive loop. */
  method ReadStream<P, U>(events: seq<Event<P>>, decode: Decoder<P, U>, contract: Contract<U>)
    returns (r: Result<ReadResult<U>, StreamErr>)
    ensures r == StreamRead(events, Start(), decode, contract)
  {
    var p: Progress<U> := Start();
    var i := 0;
    while true
      invariant 0 <= i <= |events|
      invariant StreamRead(events[i..], p, decode, contract) == StreamRead(events, Start(), decode, contract)
      decreases |events| - i
    {
      if i < |events| && events[i].CancelRequested? { return Err(StreamErr(Some(CancelledCode), "cancelled")); }
      if Complete(p) || i == |events| { break; }
      assert events[i..][1..] == events[i + 1..];
      match events[i] {
        case IdleTimeout => return Err(StreamErr(Some(DeadlineExceeded), "frame timeout"));
        case Status(error) => return Err(error);
        case Message(frame) =>
          var next := ApplyFrame(p, frame, decode);
          if next.Err? { return Err(next.error); }
          p := next.value;
      }
      i := i + 1;
    }
    r := Finish(p, contract);
  }

  function UnaryRead<P, U>(resp: ReadResponse<P>, decode: Decoder<P, U>, contract: Contract<U>)
    : Result<ReadResult<U>, ReadError>
  {
    match decode(resp.units)
    case Err(msg) => Err(InvalidResponse(msg))
    case Ok(units) =>
      var result := ReadResult(resp.markdown, resp.error, resp.images, resp.metadata, units);
      match contract(result)
      case Some(msg) => Err(InvalidResponse(msg))
      case None => Ok(result)
  }

  /** How a read ends that is not given a result: cancelled, refused by the server, or
      out of frames before the metadata or the announced images are there. */
  lemma StreamFailures<P, U>(events: seq<Event<P>>, p: Progress<U>, decode: Decoder<P, U>, contract: Contract<U>)
    ensures events != [] && events[0].CancelRequested? ==>
              StreamRead(events, p, decode, contract) == Err(StreamErr(Some(CancelledCode), "cancelled"))
    ensures !(p.gotMeta && p.expected.Some? && |p.result.images| >= p.expected.value) && events != [] ==>
              && (forall e :: events[0] == Status(e) ==> StreamRead(events, p, decode, contract) == Err(e))
              && (events[0].IdleTimeout? ==>
                    StreamRead(events, p, decode, contract) == Err(StreamErr(Some(DeadlineExceeded), "frame timeout")))
    ensures events == [] && (!p.gotMeta || (p.expected.Some? && |p.result.images| < p.expected.value)) ==>
              && StreamRead(events, p, decode, contract).Err?
              && StreamRead(events, p, decode, contract).error.code == Some(UnavailableCode)
  {
  }

  /** A read that has its metadata and the announced images ends there: what would
      still come, except a cancellation, is not waited for. */
  lemma CompleteReadStops<P, U>(events: seq<Event<P>>, p: Progress<U>, decode: Decoder<P, U>, contract: Contract<U>)
    requires p.gotMeta && p.expected.Some? && |p.result.images| >= p.expected.value
    requires events == [] || !events[0].CancelRequested?
    ensures StreamRead(events, p, decode, contract) ==
            match contract(p.result) case None => Ok(p.result) case Some(msg) => Err(StreamErr(None, msg))
  {
  }

  // ---------- any stream ----------

  function ImagesIn<P>(events: seq<Event<P>>): seq<Image> {
    if events == [] then []
    else
      var last := events[|events| - 1];
      ImagesIn(events[..|events| - 1])
      + (if last.Message? && last.frame.Some? && last.frame.value.ImageFrame? then [last.frame.value.image] else [])
  }

  function LastMeta<P>(events: seq<Event<P>>): Option<Meta<P>> {
    if events == [] then None
    else
      var last := events[|events| - 1];
      if last.Message? && last.frame.Some? && last.frame.value.MetaFrame? then Some(last.frame.value.meta)
      else LastMeta(events[..|events| - 1])
  }

  /** The metadata of all frames; a later frame overrides an earlier one. */
  function MetadataIn<P>(events: seq<Event<P>>): map<string, string> {
    if events == [] then map[]
    else
      var last := events[|events| - 1];
      MetadataIn(events[..|events| - 1])
      + (if last.Message? && last.frame.Some? && last.frame.value.MetaFrame?
         then last.frame.value.meta.metadata else map[])
  }

  /** `p` is what the client knows after consuming `seen`. */
  ghost predicate Knows<P, U>(p: Progress<U>, seen: seq<Event<P>>, decode: Decoder<P, U>) {
    && (forall i :: 0 <= i < |seen| ==> seen[i].Message?)
    && p.result.images == ImagesIn(seen) && p.result.metadata == MetadataIn(seen)
    && (p.gotMeta <==> LastMeta(seen).Some?)
    && (p.gotMeta ==>
          && var meta := LastMeta(seen).value;
             p.result.markdown == meta.markdown && p.result.error == meta.error
             && decode(meta.units) == Ok(p.result.units)
             && p.expected == (if meta.imageCount > 0 then Some(meta.imageCount) else None))
  }

  lemma KnowsNext<P, U>(p: Progress<U>, seen: seq<Event<P>>, frame: Frame<P>, decode: Decoder<P, U>)
    requires Knows(p, seen, decode) && ApplyFrame(p, frame, decode).Ok?
    ensures Knows(ApplyFrame(p, frame, decode).value, seen + [Message(frame)], decode)
  {
    assert (seen + [Message(frame)])[..|seen|] == seen;
  }

  /** Whatever arrives: a successful read consumed only messages, saw a metadata
      frame, carries the markdown, error and decoded units of the last one, the
      metadata of all of them, and every image that came before it stopped, at
      least as many as the last frame announced. */
  lemma {:induction false} StreamReadIsComplete<P, U>(events: seq<Event<P>>, n: nat, p: Progress<U>,
                                                      decode: Decoder<P, U>, contract: Contract<U>)
    returns (used: nat)
    requires n <= |events| && Knows(p, events[..n], decode) && StreamRead(events[n..], p, decode, contract).Ok?
    ensures n <= used <= |events|
    ensures forall i :: 0 <= i < used ==> events[i].Message?
    ensures LastMeta(events[..used]).Some? && |ImagesIn(events[..used])| >= LastMeta(events[..used]).value.imageCount
    ensures var result := StreamRead(events[n..], p, decode, contract).value;
            && result.images == ImagesIn(events[..used]) && result.metadata == MetadataIn(events[..used])
            && decode(LastMeta(events[..used]).value.units) == Ok(result.units)
            && result.markdown == LastMeta(events[..used]).value.markdown
            && result.error == LastMeta(events[..used]).value.error
            && contract(result).None?
    decreases |events| - n
  {
    if Complete(p) || n == |events| {
      used := n;
    } else {
      assert events[n..][0] == events[n] && events[n..][1..] == events[n + 1..];
      assert events[..n + 1] == events[..n] + [events[n]];
      KnowsNext(p, events[..n], events[n].frame, decode);
      var next := ApplyFrame(p, events[n].frame, decode).value;
      used := StreamReadIsComplete(events, n + 1, next, decode, contract);
    }
  }

  // ---------- the server ----------

  /** What the parser returned: the images are a dict in insertion order. */
  datatype Parsed<+P, +Raw> =
    | Raised(msg: string)
    | Unparsed(msg: string)
    | Parsed(content: string, names: seq<string>, images: map<string, Raw>,
             metadata: map<string, string>, units: seq<P>)

  ghost predicate DictOk<P, Raw>(parsed: Parsed<P, Raw>) {
    parsed.Parsed? ==>
      && (forall i, j :: 0 <= i < j < |parsed.names| ==> parsed.names[i] != parsed.names[j])
      && (forall n :: n in parsed.names <==> n in parsed.images)
  }

  function Basename(path: string): string {
    if path == "" || path[|path| - 1] == '/' then "" else Basename(path[..|path| - 1]) + [path[|path| - 1]]
  }

  /** `base` is what follows the last slash of `path`. */
  ghost predicate IsBase(path: string, base: string) {
    '/' !in base && (path == base || exists dir: string :: path == dir + "/" + base)
  }

  lemma {:induction false} BasenameIsBase(path: string)
    ensures IsBase(path, Basename(path))
  {
    if path != "" {
      var n := |path| - 1;
      assert path == path[..n] + [path[n]];
      if path[n] == '/' {
        assert path == path[..n] + "/" + "";
      } else {
        BasenameIsBase(path[..n]);
        if path[..n] != Basename(path[..n]) {
          var dir :| path[..n] == dir + "/" + Basename(path[..n]);
          assert path == dir + "/" + Basename(path);
        }
      }
    }
  }

  lemma {:induction false} BaseIsUnique(path: string, base: string)
    requires IsBase(path, base)
    ensures base == Basename(path)
    decreases |base|
  {
    if base == "" {
      if path != "" {
        var dir :| path == dir + "/" + base;
        assert path[|path| - 1] == '/';
      }
    } else {
      BaseShorter(path, base);
      BaseIsUnique(path[..|path| - 1], base[..|base| - 1]);
      assert base == base[..|base| - 1] + [base[|base| - 1]];
    }
  }

  /** os.path.basename is what follows the last slash, and nothing else is. */
  lemma BasenameFollowsSlash(path: string, base: string)
    ensures IsBase(path, base) <==> base == Basename(path)
  {
    BasenameIsBase(path);
    if IsBase(path, base) { BaseIsUnique(path, base); }
  }

  lemma BaseShorter(path: string, base: string)
    requires base != "" && IsBase(path, base)
    ensures path != "" && path[|path| - 1] == base[|base| - 1] && path[|path| - 1] != '/'
    ensures IsBase(path[..|path| - 1], base[..|base| - 1])
  {
    assert base[|base| - 1] in base;
    if path != base {
      var dir :| path == dir + "/" + base;
      assert path[..|path| - 1] == dir + "/" + base[..|base| - 1];
    }
  }

  /** The file name of an image: the part of its path after the last slash, or the
      spare name if that part is empty. */
  ghost predicate IsFilename(path: string, spare: string, name: string) {
    exists base :: IsBase(path, base) && name == if base != "" then base else spare
  }

  /** An image sent for a path and its payload, field by field. */
  ghost predicate Sends<Raw>(image: Image, path: string, raw: Raw, spare: string, decoded: Raw -> seq<int>,
                             mime: string -> string)
  {
    && image.originalRef == path && image.data == decoded(raw) && IsFilename(path, spare, image.filename)
    && image.mimeType == mime(image.filename) && image.storageKey == ""
  }

  lemma ImageSends<Raw>(path: string, raw: Raw, spare: string, decoded: Raw -> seq<int>, mime: string -> string)
    ensures Sends(ImageOf(path, raw, spare, decoded, mime), path, raw, spare, decoded, mime)
  {
    BasenameIsBase(path);
  }

  /** `spare` is the name made from a random UUID for a path without basename. */
  function ImageOf<Raw>(path: string, raw: Raw, spare: string, decoded: Raw -> seq<int>,
                        mime: string -> string): Image {
    var name := if Basename(path) != "" then Basename(path) else spare;
    Image(name, path, mime(name), "", decoded(raw))
  }

  function ImageAt<P, Raw>(parsed: Parsed<P, Raw>, spare: nat -> string, decoded: Raw -> seq<int>,
                           mime: string -> string, i: nat): Image
    requires parsed.Parsed? && i < |parsed.names| && parsed.names[i] in parsed.images
  {
    ImageOf(parsed.names[i], parsed.images[parsed.names[i]], spare(i), decoded, mime)
  }

  function Images<P, Raw>(parsed: Parsed<P, Raw>, spare: nat -> string, decoded: Raw -> seq<int>,
                          mime: string -> string, n: nat): (s: seq<Image>)
    requires parsed.Parsed? && n <= |parsed.names|
    requires forall i :: 0 <= i < |parsed.names| ==> parsed.names[i] in parsed.images
    ensures |s| == n
  {
    seq(n, i requires 0 <= i < n => ImageAt(parsed, spare, decoded, mime, i))
  }

  lemma ImagesNext<P, Raw>(parsed: Parsed<P, Raw>, spare: nat -> string, decoded: Raw -> seq<int>,
                           mime: string -> string, i: nat)
    requires parsed.Parsed? && DictOk(parsed) && i < |parsed.names|
    ensures Images(parsed, spare, decoded, mime, i + 1) ==
            Images(parsed, spare, decoded, mime, i) + [ImageAt(parsed, spare, decoded, mime, i)]
  {
    var a, b := Images(parsed, spare, decoded, mime, i + 1), Images(parsed, spare, decoded, mime, i);
    forall j | 0 <= j < i ensures a[j] == b[j] { assert a[j] == ImageAt(parsed, spare, decoded, mime, j); }
  }

  /** _resolve_images */
  method ResolveImages<P, Raw>(parsed: Parsed<P, Raw>, spare: nat -> string, decoded: Raw -> seq<int>,
                               mime: string -> string)
    returns (refs: seq<Image>)
    requires parsed.Parsed? && DictOk(parsed)
    ensures refs == Images(parsed, spare, decoded, mime, |parsed.names|)
    ensures |refs| == |parsed.names|
    ensures forall i :: 0 <= i < |refs| ==>
              Sends(refs[i], parsed.names[i], parsed.images[parsed.names[i]], spare(i), decoded, mime)
  {
    refs := [];
    for i := 0 to |parsed.names|
      invariant refs == Images(parsed, spare, decoded, mime, i)
      invariant forall j :: 0 <= j < i ==>
                  Sends(refs[j], parsed.names[j], parsed.images[parsed.names[j]], spare(j), decoded, mime)
    {
      ImageSends(parsed.names[i], parsed.images[parsed.names[i]], spare(i), decoded, mime);
      ImagesNext(parsed, spare, decoded, mime, i);
      var name := parsed.names[i];
      refs := refs + [ImageOf(name, parsed.images[name], spare(i), decoded, mime)];
    }
  }

  function Response<P, Raw>(parsed: Parsed<P, Raw>, spare: nat -> string, decoded: Raw -> seq<int>,
                            mime: string -> string): ReadResponse<P>
    requires DictOk(parsed)
  {
    match parsed
    case Raised(msg) => ReadResponse("", msg, [], map[], [])
    case Unparsed(msg) => ReadResponse("", msg, [], map[], [])
    case Parsed(content, names, _, metadata, units) =>
      ReadResponse(content, "", Images(parsed, spare, decoded, mime, |names|), metadata, units)
  }

  /** The unary call. */
  method ReadDocument<P, Raw>(parsed: Parsed<P, Raw>, spare: nat -> string, decoded: Raw -> seq<int>,
                              mime: string -> string)
    returns (response: ReadResponse<P>)
    requires DictOk(parsed)
    ensures response == Response(parsed, spare, decoded, mime)
    ensures !parsed.Parsed? ==> response == ReadResponse("", parsed.msg, [], map[], [])
    ensures parsed.Parsed? ==>
              && response.markdown == parsed.content && response.error == "" && response.metadata == parsed.metadata
              && response.units == parsed.units && |response.images| == |parsed.names|
  {
    if !parsed.Parsed? { return ReadResponse("", parsed.msg, [], map[], []); }
    var images := ResolveImages(parsed, spare, decoded, mime);
    response := ReadResponse(parsed.content, "", images, parsed.metadata, parsed.units);
  }

  function ImageEvents<P>(images: seq<Image>): (events: seq<Event<P>>)
    ensures |events| == |images|
  {
    if images == [] then [] else [Message(Some(ImageFrame(images[0])))] + ImageEvents(images[1..])
  }

  function Frames<P, Raw>(parsed: Parsed<P, Raw>, spare: nat -> string, decoded: Raw -> seq<int>,
                          mime: string -> string): seq<Event<P>>
    requires DictOk(parsed)
  {
    match parsed
    case Raised(msg) => [Message(Some(MetaFrame(Meta("", msg, map[], 0, []))))]
    case Unparsed(msg) => [Message(Some(MetaFrame(Meta("", msg, map[], 0, []))))]
    case Parsed(content, names, _, metadata, units) =>
      [Message(Some(MetaFrame(Meta(content, "", metadata, |names|, units))))]
      + ImageEvents(Images(parsed, spare, decoded, mime, |names|))
  }

  lemma {:induction false} ImageEventsSnoc<P>(images: seq<Image>, image: Image)
    ensures ImageEvents<P>(images + [image]) == ImageEvents(images) + [Message(Some(ImageFrame(image)))]
  {
    if images == [] {
      assert images + [image] == [image];
    } else {
      assert (images + [image])[1..] == images[1..] + [image];
      ImageEventsSnoc<P>(images[1..], image);
    }
  }

  /** The names from `i` on are still in the dict, with their payloads. */
  ghost predicate Unsent<P, Raw>(parsed: Parsed<P, Raw>, images: map<string, Raw>, i: nat)
    requires parsed.Parsed? && DictOk(parsed)
  {
    forall j :: i <= j < |parsed.names| ==>
      parsed.names[j] in images && images[parsed.names[j]] == parsed.images[parsed.names[j]]
  }

  lemma ImagesSnoc<P, Raw>(parsed: Parsed<P, Raw>, spare: nat -> string, decoded: Raw -> seq<int>,
                           mime: string -> string, i: nat)
    requires parsed.Parsed? && DictOk(parsed) && i < |parsed.names|
    ensures ImageEvents<P>(Images(parsed, spare, decoded, mime, i + 1)) ==
            ImageEvents<P>(Images(parsed, spare, decoded, mime, i))
            + [Message(Some(ImageFrame(ImageAt(parsed, spare, decoded, mime, i))))]
  {
    ImagesNext(parsed, spare, decoded, mime, i);
    ImageEventsSnoc<P>(Images(parsed, spare, decoded, mime, i),
                       ImageOf(parsed.names[i], parsed.images[parsed.names[i]], spare(i), decoded, mime));
  }

  lemma {:induction false} EventAt<P>(images: seq<Image>, i: nat)
    requires i < |images|
    ensures ImageEvents<P>(images)[i] == Message(Some(ImageFrame(images[i])))
  {
    if i > 0 { EventAt<P>(images[1..], i - 1); }
  }

  /** A frame that carries the image of a path and its payload. */
  ghost predicate SendsFrame<P, Raw>(event: Event<P>, path: string, raw: Raw, spare: string, decoded: Raw -> seq<int>,
                                     mime: string -> string)
  {
    && event.Message? && event.frame.Some? && event.frame.value.ImageFrame?
    && Sends(event.frame.value.image, path, raw, spare, decoded, mime)
  }

  /** The image generator: each image is taken out of the dict as it is sent. */
  method SendImages<P, Raw>(parsed: Parsed<P, Raw>, spare: nat -> string, decoded: Raw -> seq<int>,
                            mime: string -> string)
    returns (sent: seq<Event<P>>)
    requires parsed.Parsed? && DictOk(parsed)
    ensures sent == ImageEvents<P>(Images(parsed, spare, decoded, mime, |parsed.names|))
    ensures |sent| == |parsed.names|
    ensures forall i :: 0 <= i < |sent| ==>
              SendsFrame(sent[i], parsed.names[i], parsed.images[parsed.names[i]], spare(i), decoded, mime)
  {
    var images := parsed.images;
    sent := [];
    for i := 0 to |parsed.names|
      invariant sent == ImageEvents<P>(Images(parsed, spare, decoded, mime, i))
      invariant Unsent(parsed, images, i)
    {
      ImagesSnoc(parsed, spare, decoded, mime, i);
      var name := parsed.names[i];
      var raw := images[name];
      images := images - {name};
      sent := sent + [Message(Some(ImageFrame(ImageOf(name, raw, spare(i), decoded, mime))))];
    }
    forall i | 0 <= i < |parsed.names|
      ensures SendsFrame(sent[i], parsed.names[i], parsed.images[parsed.names[i]], spare(i), decoded, mime)
    {
      EventAt<P>(Images(parsed, spare, decoded, mime, |parsed.names|), i);
      ImageSends(parsed.names[i], parsed.images[parsed.names[i]], spare(i), decoded, mime);
    }
  }

  /** The streaming call: one metadata frame, then one frame per image. */
  method StreamFrames<P, Raw>(parsed: Parsed<P, Raw>, spare: nat -> string, decoded: Raw -> seq<int>,
                              mime: string -> string)
    returns (sent: seq<Event<P>>)
    requires DictOk(parsed)
    ensures sent == Frames(parsed, spare, decoded, mime)
  {
    if !parsed.Parsed? {
      return [Message(Some(MetaFrame(Meta("", parsed.msg, map[], 0, []))))];
    }
    var images := SendImages(parsed, spare, decoded, mime);
    sent := [Message(Some(MetaFrame(Meta(parsed.content, "", parsed.metadata, |parsed.names|, parsed.units))))]
      + images;
  }

  // ---------- the two calls agree ----------

  function Answer<U>(r: Result<ReadResult<U>, StreamErr>): Result<ReadResult<U>, ReadError> {
    match r case Ok(result) => Ok(result) case Err(e) => Err(Classified(e))
  }

  function WithImages<U>(p: Progress<U>, images: seq<Image>): Progress<U> {
    p.(result := p.result.(images := p.result.images + images))
  }

  lemma ImageIsTaken<P, U>(events: seq<Event<P>>, image: Image, p: Progress<U>, decode: Decoder<P, U>,
                           contract: Contract<U>)
    requires events != [] && events[0] == Message(Some(ImageFrame(image))) && !Complete(p)
    ensures StreamRead(events, p, decode, contract) == StreamRead(events[1..], WithImages(p, [image]), decode, contract)
  {
    assert ApplyFrame(p, events[0].frame, decode) == Ok(WithImages(p, [image]));
  }

  ghost predicate Awaits<U>(p: Progress<U>, images: seq<Image>) {
    p.gotMeta && p.expected == (if |p.result.images| + |images| > 0 then Some(|p.result.images| + |images|) else None)
  }

  lemma {:induction false} ImagesAreCollected<P, U>(images: seq<Image>, p: Progress<U>, decode: Decoder<P, U>,
                                                    contract: Contract<U>)
    requires Awaits(p, images)
    ensures StreamRead(ImageEvents(images), p, decode, contract) == Finish(WithImages(p, images), contract)
  {
    if images == [] {
      assert WithImages(p, images) == p;
    } else {
      var events: seq<Event<P>> := ImageEvents(images);
      var next := WithImages(p, [images[0]]);
      assert events[1..] == ImageEvents(images[1..]);
      ImageIsTaken(events, images[0], p, decode, contract);
      assert Awaits(next, images[1..]);
      ImagesAreCollected(images[1..], next, decode, contract);
      assert p.result.images + [images[0]] + images[1..] == p.result.images + images;
      assert WithImages(next, images[1..]) == WithImages(p, images);
    }
  }

  lemma MetaIsTaken<P, U>(events: seq<Event<P>>, meta: Meta<P>, units: seq<U>, decode: Decoder<P, U>,
                          contract: Contract<U>)
    requires events != [] && events[0] == Message(Some(MetaFrame(meta))) && decode(meta.units) == Ok(units)
    ensures StreamRead(events, Start(), decode, contract) ==
            StreamRead(events[1..], Progress(ReadResult(meta.markdown, meta.error, [], meta.metadata, units), true,
                                             if meta.imageCount > 0 then Some(meta.imageCount) else None),
                       decode, contract)
  {
    assert map[] + meta.metadata == meta.metadata;
  }

  lemma MetaThenImages<P, U>(meta: Meta<P>, images: seq<Image>, decode: Decoder<P, U>, contract: Contract<U>)
    requires meta.imageCount == |images|
    ensures Answer(StreamRead([Message(Some(MetaFrame(meta)))] + ImageEvents(images), Start(), decode, contract)) ==
            UnaryRead(ReadResponse(meta.markdown, meta.error, images, meta.metadata, meta.units), decode, contract)
  {
    var events := [Message(Some(MetaFrame(meta)))] + ImageEvents(images);
    assert events[1..] == ImageEvents(images);
    match decode(meta.units)
    case Err(_) =>
    case Ok(units) =>
      var p := Progress(ReadResult(meta.markdown, meta.error, [], meta.metadata, units), true,
                        if meta.imageCount > 0 then Some(meta.imageCount) else None);
      MetaIsTaken(events, meta, units, decode, contract);
      ImagesAreCollected(images, p, decode, contract);
      assert WithImages(p, images) == p.(result := p.result.(images := images));
  }

  /** The two calls give image `i` the same name: its path does not end in a slash, or the two
      random ones happen to be the same. */
  ghost predicate SameName<P, Raw>(parsed: Parsed<P, Raw>, spare: nat -> string, spare': nat -> string, i: nat)
    requires parsed.Parsed? && i < |parsed.names|
  {
    var path := parsed.names[i];
    (path != "" && path[|path| - 1] != '/') || spare(i) == spare'(i)
  }

  ghost predicate SameNames<P, Raw>(parsed: Parsed<P, Raw>, spare: nat -> string, spare': nat -> string) {
    parsed.Parsed? ==> forall i :: 0 <= i < |parsed.names| ==> SameName(parsed, spare, spare', i)
  }

  /** The stream read refines the unary read: for every parse result whose images
      get the same names, in particular when all their paths have basenames, both
      calls give the client the same answer or the same error. */
  lemma StreamRefinesUnary<P, Raw, U>(parsed: Parsed<P, Raw>, spare: nat -> string, spare': nat -> string,
                                      decoded: Raw -> seq<int>, mime: string -> string,
                                      decode: Decoder<P, U>, contract: Contract<U>)
    requires DictOk(parsed) && SameNames(parsed, spare, spare')
    ensures Answer(StreamRead(Frames(parsed, spare, decoded, mime), Start(), decode, contract)) ==
            UnaryRead(Response(parsed, spare', decoded, mime), decode, contract)
  {
    if parsed.Parsed? {
      var images := Images(parsed, spare, decoded, mime, |parsed.names|);
      NamedImages(parsed, spare, spare', decoded, mime, |parsed.names|);
      MetaThenImages(Meta(parsed.content, "", parsed.metadata, |parsed.names|, parsed.units), images, decode, contract);
    } else {
      var meta: Meta<P> := Meta("", parsed.msg, map[], 0, []);
      MetaThenImages(meta, [], decode, contract);
      assert [Message(Some(MetaFrame(meta)))] + ImageEvents<P>([]) == [Message(Some(MetaFrame(meta)))];
    }
  }

  lemma SpareUnused<Raw>(path: string, raw: Raw, spare: string, spare': string, decoded: Raw -> seq<int>,
                         mime: string -> string)
    requires Basename(path) != "" || spare == spare'
    ensures ImageOf(path, raw, spare, decoded, mime) == ImageOf(path, raw, spare', decoded, mime)
  {
  }

  lemma NamedImages<P, Raw>(parsed: Parsed<P, Raw>, spare: nat -> string, spare': nat -> string,
                            decoded: Raw -> seq<int>, mime: string -> string, n: nat)
    requires parsed.Parsed? && DictOk(parsed) && n <= |parsed.names|
    requires forall i :: 0 <= i < n ==> SameName(parsed, spare, spare', i)
    ensures Images(parsed, spare, decoded, mime, n) == Images(parsed, spare', decoded, mime, n)
  {
    var a, b := Images(parsed, spare, decoded, mime, n), Images(parsed, spare', decoded, mime, n);
    forall i | 0 <= i < n ensures a[i] == b[i] {
      assert SameName(parsed, spare, spare', i);
      SpareUnused(parsed.names[i], parsed.images[parsed.names[i]], spare(i), spare'(i), decoded, mime);
      assert a[i] == ImageOf(parsed.names[i], parsed.images[parsed.names[i]], spare(i), decoded, mime);
      assert b[i] == ImageOf(parsed.names[i], parsed.images[parsed.names[i]], spare'(i), decoded, mime);
    }
  }

  /** A path without basename is named at random by each call, and when the names
      differ the successful answers do. */
  lemma UnnamedImagesDiffer<P, Raw, U>(parsed: Parsed<P, Raw>, spare: nat -> string, spare': nat -> string,
                                       decoded: Raw -> seq<int>, mime: string -> string,
                                       decode: Decoder<P, U>, contract: Contract<U>, i: nat)
    requires parsed.Parsed? && DictOk(parsed) && i < |parsed.names| && !SameName(parsed, spare, spare', i)
    requires UnaryRead(Response(parsed, spare', decoded, mime), decode, contract).Ok?
    ensures Answer(StreamRead(Frames(parsed, spare, decoded, mime), Start(), decode, contract)) !=
            UnaryRead(Response(parsed, spare', decoded, mime), decode, contract)
  {
    var images := Images(parsed, spare, decoded, mime, |parsed.names|);
    MetaThenImages(Meta(parsed.content, "", parsed.metadata, |parsed.names|, parsed.units), images, decode, contract);
    assert images[i].filename == spare(i);
    assert Images(parsed, spare', decoded, mime, |parsed.names|)[i].filename == spare'(i);
  }

  /** Exactly when the two calls agree: if the unary read succeeds, the stream
      gives the same answer if and only if every image gets the same name. */
  lemma StreamEqualsUnaryIff<P, Raw, U>(parsed: Parsed<P, Raw>, spare: nat -> string, spare': nat -> string,
                                        decoded: Raw -> seq<int>, mime: string -> string,
                                        decode: Decoder<P, U>, contract: Contract<U>)
    requires DictOk(parsed) && UnaryRead(Response(parsed, spare', decoded, mime), decode, contract).Ok?
    ensures Answer(StreamRead(Frames(parsed, spare, decoded, mime), Start(), decode, contract)) ==
            UnaryRead(Response(parsed, spare', decoded, mime), decode, contract)
            <==> SameNames(parsed, spare, spare')
  {
    if SameNames(parsed, spare, spare') {
      StreamRefinesUnary(parsed, spare, spare', decoded, mime, decode, contract);
    } else {
      var i :| 0 <= i < |parsed.names| && !SameName(parsed, spare, spare', i);
      UnnamedImagesDiffer(parsed, spare, spare', decoded, mime, decode, contract, i);
    }
  }

  // ---------- the fallback ----------

  /** The stream, unless the server does not know that call: then the unary call,
      whatever had come before. */
  method ReadClassified<P, U>(events: seq<Event<P>>, unary: Result<ReadResponse<P>, StreamErr>, decode: Decoder<P, U>,
                              contract: Contract<U>)
    returns (r: Result<ReadResult<U>, ReadError>)
    ensures r == Fallback(StreamRead(events, Start(), decode, contract), unary, decode, contract)
  {
    var streamed := ReadStream(events, decode, contract);
    if streamed.Ok? { return Ok(streamed.value); }
    if streamed.error.code != Some(Unimplemented) { return Err(Classified(streamed.error)); }
    if unary.Err? { return Err(Classified(unary.error)); }
    r := UnaryRead(unary.value, decode, contract);
  }

  function Fallback<P, U>(streamed: Result<ReadResult<U>, StreamErr>, unary: Result<ReadResponse<P>, StreamErr>,
                          decode: Decoder<P, U>, contract: Contract<U>): Result<ReadResult<U>, ReadError>
  {
    if streamed.Err? && streamed.error.code == Some(Unimplemented)
    then if unary.Ok? then UnaryRead(unary.value, decode, contract) else Err(Classified(unary.error))
    else Answer(streamed)
  }

  /** A client gets the same answer from a server with the streaming call and from one
      without, if the images get the same names. */
  lemma FallbackRefinesUnary<P, Raw, U>(parsed: Parsed<P, Raw>, spare: nat -> string, spare': nat -> string,
                                        decoded: Raw -> seq<int>, mime: string -> string,
                                        decode: Decoder<P, U>, contract: Contract<U>, refusal: string)
    requires DictOk(parsed) && SameNames(parsed, spare, spare')
    ensures var unary := Ok(Response(parsed, spare', decoded, mime));
            var streamed := StreamRead(Frames(parsed, spare, decoded, mime), Start(), decode, contract);
            var refused := StreamRead([Status(StreamErr(Some(Unimplemented), refusal))], Start(), decode, contract);
            Fallback(streamed, unary, decode, contract) == UnaryRead(unary.value, decode, contract)
            && Fallback(refused, unary, decode, contract) == UnaryRead(unary.value, decode, contract)
  {
    StreamRefinesUnary(parsed, spare, spare', decoded, mime, decode, contract);
  }
}
