/**
 * The "data" URL scheme of section 3 of RFC 2397, in the one form the
 * bridge writes: "data:" mediatype ";base64," base64-data.
 */
module DataUrl {

  import opened Wrappers
  import Strings
  import Base64

  const Scheme := "data:"
  const Base64Marker := ";base64,"

  /** The URL that carries the octets inline. */
  function Build(mediaType: string, data: seq<Base64.byte>): string
  {
    Scheme + mediaType + Base64Marker + Base64.Encode(data)
  }

  /** Index of the first c in s, or |s| when there is none. */
  function IndexOf(s: string, c: char): (i: nat)
    ensures i <= |s| && c !in s[..i]
    ensures i < |s| ==> s[i] == c
  {
    if s == [] then 0
    else if s[0] == c then 0
    else
      var j := IndexOf(s[1..], c);
      assert s[..j + 1] == [s[0]] + s[1..][..j];
      j + 1
  }

  /** Reads back the media type and the octets of a base64 data URL. */
  function Parse(url: string): Option<(string, seq<Base64.byte>)>
  {
    if !Strings.StartsWith(url, Scheme) then None
    else
      var rest := url[|Scheme|..];
      var i := IndexOf(rest, ';');
      var tail := rest[i..];
      if !Strings.StartsWith(tail, Base64Marker) then None
      else
        match Base64.Decode(tail[|Base64Marker|..])
        case None => None
        case Some(data) => Some((rest[..i], data))
  }

  /** A data URL built for a media type without ';' reads back to that media type and those octets. */
  lemma ParseBuild(mediaType: string, data: seq<Base64.byte>)
    requires ';' !in mediaType
    ensures Parse(Build(mediaType, data)) == Some((mediaType, data))
  {
    var url := Build(mediaType, data);
    var rest := url[|Scheme|..];
    assert url[..|Scheme|] == Scheme;
    assert rest == mediaType + Base64Marker + Base64.Encode(data);
    assert rest[|mediaType|] == ';';
    assert rest[..|mediaType|] == mediaType;
    var i := IndexOf(rest, ';');
    assert i == |mediaType|;
    var tail := rest[i..];
    assert tail == Base64Marker + Base64.Encode(data);
    assert tail[..|Base64Marker|] == Base64Marker;
    assert tail[|Base64Marker|..] == Base64.Encode(data);
    Base64.DecodeEncode(data);
  }
}
