/**
 * The request bodies and URIs of the WhatsApp gateway client
 * (GsWhatsAppClient.cs) and its failure rules: a send that fails yields
 * the empty message id, a fetch that fails yields an empty stream, and a
 * media send without a content URI is refused before any request. The
 * HTTP exchange itself is an input: a function from the request body to
 * the message id the gateway returns, None when the call or its decoding
 * throws.
 */
module GsClient {

  import opened Wrappers
  import Strings

  datatype MediaType = Image | Audio | File | Video

  /** Mediatype.ToString(). */
  function MediaTypeName(kind: MediaType): string
  {
    match kind
    case Image => "image"
    case Audio => "audio"
    case File => "file"
    case Video => "video"
  }

  /** The fixed start of every media body, up to and including the type field. */
  function MediaPrefix(number: string, destination: string, kind: MediaType): string
  {
    "channel=whatsapp&source=" + number + "&destination=" + destination
      + "&message.payload={\"type\":\"" + MediaTypeName(kind) + "\","
  }

  const FilenameKey := "\"filename\":\""
  const OriginalUrlKey := "\"originalUrl\":\""
  const PreviewUrlKey := ",\"previewUrl\":\""
  const UrlKey := "\"url\":\""

  /** The form body SendMedia posts; the content and thumbnail URIs are already present here. */
  function MediaBody(number: string, destination: string, kind: MediaType, filename: string,
                     content: string, thumbnail: Option<string>): string
  {
    MediaPrefix(number, destination, kind) + MediaTail(kind, filename, content, thumbnail)
  }

  /**
   * What follows the type field: a filename field for every kind but audio,
   * then the original and preview URLs of an image (the preview falls back
   * to the content URI), or the single url field of any other kind.
   */
  function MediaTail(kind: MediaType, filename: string, content: string, thumbnail: Option<string>): string
  {
    (if kind != Audio then FilenameKey + filename + "\"," else "")
      + (if kind == Image then
           OriginalUrlKey + content + "\""
             + (if thumbnail.Some? then PreviewUrlKey + thumbnail.value + "\"" else PreviewUrlKey + content + "\"")
             + "}"
         else UrlKey + content + "\"}")
  }

  /** The error SendMedia throws for a missing content URI. */
  datatype ArgumentError = ArgumentMissing(parameter: string)

  /**
   * SendMedia: refused with ArgumentException when the content URI is null;
   * otherwise the body is posted and the returned id, or "" on any failure,
   * is the result.
   */
  function SendMedia(number: string, destination: string, kind: MediaType, filename: string,
                     content: Option<string>, thumbnail: Option<string>,
                     post: string -> Option<string>): (r: Result<string, ArgumentError>)
    ensures r.Failure? <==> content.None?
    ensures r.Failure? ==> r.error == ArgumentMissing("contentUri")
    ensures r.Success? ==>
      r.value == SentId(post(MediaBody(number, destination, kind, filename, content.value, thumbnail)))
  {
    if content.None? then Failure(ArgumentMissing("contentUri"))
    else
      var body := MediaBody(number, destination, kind, filename, content.value, thumbnail);
      Success(SentId(post(body)))
  }

  /** A send's result: the gateway's id, or "" when the call or its decoding failed. */
  function SentId(reply: Option<string>): (id: string)
    ensures reply.None? ==> id == ""
  {
    match reply
    case Some(id) => id
    case None => ""
  }

  /** The form body SendText posts: the text goes in as it is, unescaped. */
  function TextBody(number: string, destination: string, text: string): string
  {
    "channel=whatsapp&source=" + number + "&destination=" + destination + "&message=" + text
  }

  /** SendText never throws: a failed call yields "". */
  function SendText(number: string, destination: string, text: string, post: string -> Option<string>): string
  {
    SentId(post(TextBody(number, destination, text)))
  }

  /** GetVoice's URI: the media URI, the app name, '/', the voice id. */
  function VoiceUri(mediaUri: string, appName: string, voiceId: string): string
  {
    mediaUri + appName + "/" + voiceId
  }

  /** GetVoice and GetAudio: the fetched octets, or an empty stream when the fetch throws. */
  function Fetched<B>(reply: Option<seq<B>>): (r: seq<B>)
    ensures reply.None? ==> r == []
    ensures reply.Some? ==> r == reply.value
  {
    if reply.Some? then reply.value else []
  }

  /** The text body starts with the routing fields and ends with the text itself, unchanged. */
  lemma TextBodyLayout(number: string, destination: string, text: string)
    ensures Strings.StartsWith(TextBody(number, destination, text), "channel=whatsapp&source=" + number)
    ensures Strings.EndsWith(TextBody(number, destination, text), "&message=" + text)
  {
    var body := TextBody(number, destination, text);
    var head := "channel=whatsapp&source=" + number;
    var mid := "&destination=" + destination;
    assert body == head + (mid + ("&message=" + text));
    assert body[..|head|] == head;
    assert body[|body| - |"&message=" + text|..] == "&message=" + text;
  }

  lemma PrefixOfAppend(a: string, b: string)
    ensures Strings.StartsWith(a + b, a)
  {
    assert (a + b)[..|a|] == a;
  }

  lemma SuffixOfAppend(a: string, b: string)
    ensures Strings.EndsWith(a + b, b)
  {
    assert (a + b)[|a|..] == b;
  }

  /**
   * The layout of a media body: it starts with the routing fields and the
   * type; right after them comes a filename field exactly when the kind is
   * not audio; an image's body ends with the original URL, which is the
   * content URI, followed by the preview URL (the thumbnail if given, else
   * the content URI); any other kind's ends with a single url field.
   */
  lemma MediaBodyLayout(number: string, destination: string, kind: MediaType, filename: string,
                        content: string, thumbnail: Option<string>)
    ensures var body := MediaBody(number, destination, kind, filename, content, thumbnail);
      && Strings.StartsWith(body, MediaPrefix(number, destination, kind))
      && (Strings.StartsWith(body[|MediaPrefix(number, destination, kind)|..], FilenameKey) <==> kind != Audio)
      && (kind == Image ==>
            Strings.EndsWith(body, OriginalUrlKey + content + "\""
                                   + PreviewUrlKey + (if thumbnail.Some? then thumbnail.value else content) + "\"}"))
      && (kind != Image ==> Strings.EndsWith(body, UrlKey + content + "\"}"))
      && Strings.EndsWith(body, "}")
  {
    var p := MediaPrefix(number, destination, kind);
    var t := MediaTail(kind, filename, content, thumbnail);
    var body := MediaBody(number, destination, kind, filename, content, thumbnail);
    PrefixOfAppend(p, t);
    assert body[|p|..] == t;
    TailStartsWithFilename(kind, filename, content, thumbnail);
    TailEnds(kind, filename, content, thumbnail);
    EndsWithTrans(body, t);
  }

  lemma EndsWithTrans(body: string, t: string)
    requires Strings.EndsWith(body, t)
    ensures forall e :: Strings.EndsWith(t, e) ==> Strings.EndsWith(body, e)
  {
    forall e | Strings.EndsWith(t, e)
      ensures Strings.EndsWith(body, e)
    {
      assert body[|body| - |e|..] == t[|t| - |e|..];
    }
  }

  lemma TailStartsWithFilename(kind: MediaType, filename: string, content: string, thumbnail: Option<string>)
    ensures Strings.StartsWith(MediaTail(kind, filename, content, thumbnail), FilenameKey) <==> kind != Audio
  {
    var t := MediaTail(kind, filename, content, thumbnail);
    if kind != Audio {
      assert t[..|FilenameKey|] == (FilenameKey + filename)[..|FilenameKey|] == FilenameKey;
    } else {
      assert t == UrlKey + content + "\"}";
      assert t[1] == 'u';
    }
  }

  lemma TailEnds(kind: MediaType, filename: string, content: string, thumbnail: Option<string>)
    ensures var t := MediaTail(kind, filename, content, thumbnail);
      && (kind == Image ==>
            Strings.EndsWith(t, OriginalUrlKey + content + "\""
                                + PreviewUrlKey + (if thumbnail.Some? then thumbnail.value else content) + "\"}"))
      && (kind != Image ==> Strings.EndsWith(t, UrlKey + content + "\"}"))
      && Strings.EndsWith(t, "}")
  {
    var f := if kind != Audio then FilenameKey + filename + "\"," else "";
    if kind == Image {
      var preview := if thumbnail.Some? then thumbnail.value else content;
      ImageTailShape(filename, content, thumbnail);
      ImageTailEnds(f, content, preview);
    } else {
      OtherTailShape(kind, filename, content, thumbnail);
      OtherTailEnds(f, content);
    }
  }

  lemma ImageTailShape(filename: string, content: string, thumbnail: Option<string>)
    ensures MediaTail(Image, filename, content, thumbnail)
      == (FilenameKey + filename + "\"," + OriginalUrlKey + content + "\"")
         + (PreviewUrlKey + (if thumbnail.Some? then thumbnail.value else content) + "\"}")
  {
  }

  lemma OtherTailShape(kind: MediaType, filename: string, content: string, thumbnail: Option<string>)
    requires kind != Image
    ensures MediaTail(kind, filename, content, thumbnail)
      == (if kind != Audio then FilenameKey + filename + "\"," else "") + (UrlKey + content + "\"}")
  {
  }

  lemma OtherTailEnds(f: string, content: string)
    ensures var tail := UrlKey + content + "\"}";
      && Strings.EndsWith(f + tail, tail)
      && Strings.EndsWith(f + tail, "}")
  {
    var tail := UrlKey + content + "\"}";
    SuffixOfAppend(f, tail);
    EndsWithTrans(f + tail, tail);
    assert Strings.EndsWith(tail, "}");
  }

  lemma ImageTailEnds(f: string, content: string, preview: string)
    ensures var tail := PreviewUrlKey + preview + "\"}";
      && Strings.EndsWith((f + OriginalUrlKey + content + "\"") + tail, OriginalUrlKey + content + "\"" + tail)
      && Strings.EndsWith((f + OriginalUrlKey + content + "\"") + tail, "}")
  {
    var urls := OriginalUrlKey + content + "\"";
    var tail := PreviewUrlKey + preview + "\"}";
    assert (f + OriginalUrlKey + content + "\"") + tail == f + (urls + tail);
    SuffixOfAppend(f, urls + tail);
    EndsWithTrans(f + (urls + tail), urls + tail);
    assert Strings.EndsWith(urls + tail, "}");
  }
}
