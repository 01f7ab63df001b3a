/**
 * The gateway payload helpers (WhatsAppHelper.cs): parsing a query string
 * into a dictionary, pulling the indexed media attachments out of a
 * payload, and the field mappings between a gateway payload, a Bot
 * Framework activity and the outgoing message options.
 */
module WhatsAppHelper {

  import opened Wrappers
  import opened Schema
  import Strings

  /** The exceptions these helpers throw. */
  datatype HelperError =
    | ArgumentNull(parameter: string)
    | IndexOutOfRange
    | DuplicateKey(key: string)
    | UriFormat(uriString: string)

  // ---------------------------------------------------------------- query strings

  /** pair[0] of p.Split('='): the text before the first '='. */
  function KeyOf(piece: string): string
  {
    Strings.Split(piece, '=')[0]
  }

  /** pair[1] of p.Split('='): the text between the first and the second '='. */
  function ValueOf(piece: string): string
    requires '=' in piece
  {
    Strings.SplitHasSecondPiece(piece, '=');
    Strings.Split(piece, '=')[1]
  }

  /** One iteration of the loop: read the pair, unescape the value, Add it. */
  function AddPiece(values: map<string, string>, piece: string, unescape: string -> string): (r: Result<map<string, string>, HelperError>)
    ensures r.Success? <==> '=' in piece && KeyOf(piece) !in values
  {
    Strings.SplitHasSecondPiece(piece, '=');
    var pair := Strings.Split(piece, '=');
    if |pair| < 2 then Failure(IndexOutOfRange)
    else if pair[0] in values then Failure(DuplicateKey(pair[0]))
    else Success(values[pair[0] := unescape(pair[1])])
  }

  /** The dictionary after the loop has run over the pieces, or the first exception. */
  function AddPieces(pieces: seq<string>, unescape: string -> string): Result<map<string, string>, HelperError>
  {
    if pieces == [] then Success(map[])
    else
      var done := AddPieces(pieces[..|pieces| - 1], unescape);
      if done.Failure? then done
      else AddPiece(done.value, pieces[|pieces| - 1], unescape)
  }

  /** The pieces the loop runs over: '+' becomes "%20", then the query is cut at every '&'. */
  function QueryPieces(query: string): seq<string>
  {
    Strings.Split(Strings.Replace(query, "+", "%20"), '&')
  }

  /** What QueryStringToDictionary returns or throws. */
  function QueryDictionary(query: Option<string>, unescape: string -> string): Result<map<string, string>, HelperError>
  {
    if Strings.IsNullOrWhiteSpace(query) then Success(map[])
    else AddPieces(QueryPieces(query.value), unescape)
  }

  /** QueryStringToDictionary, filling the dictionary piece by piece. */
  method QueryStringToDictionary(query: Option<string>, unescape: string -> string)
    returns (r: Result<map<string, string>, HelperError>)
    ensures r == QueryDictionary(query, unescape)
    ensures Strings.IsNullOrWhiteSpace(query) ==> r == Success(map[])
  {
    var values: map<string, string> := map[];
    if Strings.IsNullOrWhiteSpace(query) {
      return Success(values);
    }
    var pairs := QueryPieces(query.value);
    var i := 0;
    while i < |pairs|
      invariant 0 <= i <= |pairs|
      invariant AddPieces(pairs[..i], unescape) == Success(values)
    {
      assert pairs[..i + 1][..i] == pairs[..i];
      var next := AddPiece(values, pairs[i], unescape);
      if next.Failure? {
        FailureSticks(pairs, i + 1, unescape);
        return next;
      }
      values := next.value;
      i := i + 1;
    }
    assert pairs[..i] == pairs;
    r := Success(values);
  }

  /** Once a prefix of the pieces throws, the whole loop throws the same exception. */
  lemma {:induction false} FailureSticks(pieces: seq<string>, k: nat, unescape: string -> string)
    requires k <= |pieces|
    requires AddPieces(pieces[..k], unescape).Failure?
    ensures AddPieces(pieces, unescape) == AddPieces(pieces[..k], unescape)
    decreases |pieces| - k
  {
    if k < |pieces| {
      assert pieces[..k + 1][..k] == pieces[..k];
      FailureSticks(pieces, k + 1, unescape);
    } else {
      assert pieces[..k] == pieces;
    }
  }

  /** The keys of the pieces. */
  function PieceKeys(pieces: seq<string>): set<string>
  {
    set k | 0 <= k < |pieces| :: KeyOf(pieces[k])
  }

  /** Every piece has an '=' and no two pieces share a key. */
  predicate WellFormedPieces(pieces: seq<string>)
  {
    && (forall k :: 0 <= k < |pieces| ==> '=' in pieces[k])
    && (forall i, j :: 0 <= i < j < |pieces| ==> KeyOf(pieces[i]) != KeyOf(pieces[j]))
  }

  lemma PieceKeysSnoc(init: seq<string>, last: string)
    ensures PieceKeys(init + [last]) == PieceKeys(init) + {KeyOf(last)}
  {
    var p := init + [last];
    forall key | key in PieceKeys(p) ensures key in PieceKeys(init) + {KeyOf(last)} {
      var k :| 0 <= k < |p| && KeyOf(p[k]) == key;
      if k < |init| {
        assert p[k] == init[k];
      }
    }
    forall key | key in PieceKeys(init) ensures key in PieceKeys(p) {
      var k :| 0 <= k < |init| && KeyOf(init[k]) == key;
      assert p[k] == init[k];
    }
    assert p[|init|] == last;
  }

  /** Well-formedness grows one piece at a time. */
  lemma WellFormedSnoc(init: seq<string>, last: string)
    ensures WellFormedPieces(init + [last]) <==>
      WellFormedPieces(init) && '=' in last && KeyOf(last) !in PieceKeys(init)
  {
    var p := init + [last];
    assert forall k :: 0 <= k < |init| ==> p[k] == init[k];
    assert p[|init|] == last;
    if WellFormedPieces(p) {
      assert WellFormedPieces(init) by {
        forall i, j | 0 <= i < j < |init| ensures KeyOf(init[i]) != KeyOf(init[j]) {
          assert p[i] == init[i] && p[j] == init[j];
        }
      }
      forall k | 0 <= k < |init| ensures KeyOf(init[k]) != KeyOf(last) {
        assert KeyOf(p[k]) != KeyOf(p[|init|]);
      }
    }
    if WellFormedPieces(init) && '=' in last && KeyOf(last) !in PieceKeys(init) {
      forall i, j | 0 <= i < j < |p| ensures KeyOf(p[i]) != KeyOf(p[j]) {
        if j < |init| {
          assert KeyOf(init[i]) != KeyOf(init[j]);
        } else {
          assert KeyOf(init[i]) in PieceKeys(init);
        }
      }
    }
  }

  /**
   * On success the dictionary holds exactly one entry per piece: its key,
   * mapped to its unescaped value.
   */
  lemma {:induction false} AddPiecesContents(pieces: seq<string>, unescape: string -> string)
    requires AddPieces(pieces, unescape).Success?
    ensures AddPieces(pieces, unescape).value.Keys == PieceKeys(pieces)
    ensures forall k :: 0 <= k < |pieces| ==>
      '=' in pieces[k] && AddPieces(pieces, unescape).value[KeyOf(pieces[k])] == unescape(ValueOf(pieces[k]))
  {
    if pieces != [] {
      var init, last := pieces[..|pieces| - 1], pieces[|pieces| - 1];
      assert pieces == init + [last];
      AddPiecesContents(init, unescape);
      var m := AddPieces(init, unescape).value;
      var r := AddPieces(pieces, unescape).value;
      PieceKeysSnoc(init, last);
      assert r == m[KeyOf(last) := unescape(ValueOf(last))];
      forall k | 0 <= k < |pieces|
        ensures '=' in pieces[k] && r[KeyOf(pieces[k])] == unescape(ValueOf(pieces[k]))
      {
        if k < |init| {
          assert pieces[k] == init[k];
          assert KeyOf(init[k]) in PieceKeys(init);
        }
      }
    }
  }

  /** The loop succeeds exactly when every piece has an '=' and the keys are distinct. */
  lemma {:induction false} AddPiecesSucceedsIff(pieces: seq<string>, unescape: string -> string)
    ensures AddPieces(pieces, unescape).Success? <==> WellFormedPieces(pieces)
  {
    if pieces != [] {
      var init, last := pieces[..|pieces| - 1], pieces[|pieces| - 1];
      assert pieces == init + [last];
      AddPiecesSucceedsIff(init, unescape);
      WellFormedSnoc(init, last);
      if AddPieces(init, unescape).Success? {
        AddPiecesContents(init, unescape);
      } else {
        assert !WellFormedPieces(init);
      }
    }
  }

  /**
   * The key is the text before the first '=' and the value the text between
   * the first '=' and the next one (or the end of the piece).
   */
  lemma PieceLayout(piece: string)
    requires '=' in piece
    ensures '=' !in KeyOf(piece) && '=' !in ValueOf(piece)
    ensures Strings.StartsWith(piece, KeyOf(piece) + "=" + ValueOf(piece))
    ensures var n := |KeyOf(piece) + "=" + ValueOf(piece)|; n == |piece| || piece[n] == '='
  {
    var parts := Strings.Split(piece, '=');
    Strings.SplitHasSecondPiece(piece, '=');
    Strings.SplitJoin(piece, '=');
    var key, value := parts[0], parts[1];
    var prefix := key + "=" + value;
    assert piece == key + ['='] + Strings.Join(parts[1..], '=');
    var rest := parts[1..];
    if |rest| == 1 {
      assert Strings.Join(rest, '=') == value;
      assert piece == prefix;
    } else {
      assert Strings.Join(rest, '=') == value + ['='] + Strings.Join(rest[1..], '=');
      assert piece == prefix + (['='] + Strings.Join(rest[1..], '='));
    }
    assert piece[..|prefix|] == prefix;
  }

  // ---------------------------------------------------------------- attachments

  function ContentTypeKey(i: nat): string
  {
    "MediaContentType" + Strings.NatToString(i)
  }

  function UrlKey(i: nat): string
  {
    "MediaUrl" + Strings.NatToString(i)
  }

  /** Index i of the payload carries a media item: both of its keys are present. */
  predicate HasMedia(message: map<string, string>, i: nat)
  {
    ContentTypeKey(i) in message && UrlKey(i) in message
  }

  function MediaAttachment(message: map<string, string>, i: nat): Attachment
    requires HasMedia(message, i)
  {
    UrlAttachment(message[ContentTypeKey(i)], message[UrlKey(i)])
  }

  /** The indices below n that carry a media item, in increasing order. */
  function MediaIndices(n: int, message: map<string, string>): seq<nat>
  {
    IndicesWhere(n, (i: nat) => HasMedia(message, i))
  }

  /** The indices below n that satisfy p, counting up from 0. */
  function IndicesWhere(n: int, p: nat -> bool): (r: seq<nat>)
    ensures |r| <= if n < 0 then 0 else n
    decreases if n < 0 then 0 else n
  {
    if n <= 0 then []
    else IndicesWhere(n - 1, p) + (if p(n - 1) then [n - 1] else [])
  }

  /** GetMessageAttachments' result: one attachment per index that carries a media item. */
  function MessageAttachments(n: int, message: map<string, string>): seq<Attachment>
    decreases if n < 0 then 0 else n
  {
    if n <= 0 then []
    else
      var item := if HasMedia(message, n - 1) then [MediaAttachment(message, n - 1)] else [];
      MessageAttachments(n - 1, message) + item
  }

  /** GetMessageAttachments, appending to the list as the source's loop does. */
  method GetMessageAttachments(numMedia: int, message: map<string, string>) returns (attachments: seq<Attachment>)
    ensures attachments == MessageAttachments(numMedia, message)
  {
    attachments := [];
    var i := 0;
    while i < numMedia
      invariant 0 <= i <= if numMedia < 0 then 0 else numMedia
      invariant attachments == MessageAttachments(i, message)
    {
      if ContentTypeKey(i) in message && UrlKey(i) in message {
        attachments := attachments + [MediaAttachment(message, i)];
      }
      i := i + 1;
    }
  }

  predicate Increasing(s: seq<nat>)
  {
    forall a, b :: 0 <= a < b < |s| ==> s[a] < s[b]
  }

  predicate MediaBelow(s: seq<nat>, n: int, message: map<string, string>)
  {
    forall a :: 0 <= a < |s| ==> s[a] < n && HasMedia(message, s[a])
  }

  /** The indices come in increasing order, all below n, and each carries a media item. */
  lemma MediaIndicesOrdered(n: int, message: map<string, string>)
    ensures Increasing(MediaIndices(n, message))
    ensures MediaBelow(MediaIndices(n, message), n, message)
  {
    IndicesWhereOrdered(n, (i: nat) => HasMedia(message, i));
  }

  /** An index is among them exactly when it is below n and both of its keys are present. */
  lemma MediaIndicesMembers(n: int, message: map<string, string>)
    ensures forall i: nat :: i in MediaIndices(n, message) <==> i < n && HasMedia(message, i)
  {
    IndicesWhereMembers(n, (i: nat) => HasMedia(message, i));
  }

  lemma {:induction false} IndicesWhereOrdered(n: int, p: nat -> bool)
    ensures Increasing(IndicesWhere(n, p))
    ensures forall a :: 0 <= a < |IndicesWhere(n, p)| ==> IndicesWhere(n, p)[a] < n && p(IndicesWhere(n, p)[a])
    decreases if n < 0 then 0 else n
  {
    if n > 0 {
      IndicesWhereOrdered(n - 1, p);
      var init := IndicesWhere(n - 1, p);
      var r := IndicesWhere(n, p);
      if p(n - 1) {
        assert r == init + [n - 1];
        AppendAbove(init, n - 1, p);
      } else {
        assert r == init;
      }
    }
  }

  /** Appending an index above all the others, which satisfies p, keeps both facts. */
  lemma AppendAbove(init: seq<nat>, x: nat, p: nat -> bool)
    requires Increasing(init) && p(x)
    requires forall a :: 0 <= a < |init| ==> init[a] < x && p(init[a])
    ensures Increasing(init + [x])
    ensures forall a :: 0 <= a < |init + [x]| ==> (init + [x])[a] < x + 1 && p((init + [x])[a])
  {
    var r := init + [x];
    forall a, b | 0 <= a < b < |r|
      ensures r[a] < r[b]
    {
      if b < |init| {
        assert r[a] == init[a] && r[b] == init[b];
      } else {
        assert r[a] == init[a] && r[b] == x;
      }
    }
    forall a | 0 <= a < |r|
      ensures r[a] < x + 1 && p(r[a])
    {
      if a < |init| {
        assert r[a] == init[a];
      }
    }
  }

  lemma {:induction false} IndicesWhereMembers(n: int, p: nat -> bool)
    ensures forall i: nat :: i in IndicesWhere(n, p) <==> i < n && p(i)
    decreases if n < 0 then 0 else n
  {
    if n > 0 {
      IndicesWhereMembers(n - 1, p);
      var init := IndicesWhere(n - 1, p);
      if p(n - 1) {
        assert IndicesWhere(n, p) == init + [n - 1];
      } else {
        assert IndicesWhere(n, p) == init;
      }
    }
  }

  /** The attachments are the media items of those indices, in that order; so there are at most n, and none when n <= 0. */
  lemma {:induction false} MessageAttachmentsSpec(n: int, message: map<string, string>)
    ensures var r, idx := MessageAttachments(n, message), MediaIndices(n, message);
      && |r| == |idx|
      && (forall a :: 0 <= a < |r| ==> HasMedia(message, idx[a]) && r[a] == MediaAttachment(message, idx[a]))
    ensures |MessageAttachments(n, message)| <= if n < 0 then 0 else n
    ensures n <= 0 ==> MessageAttachments(n, message) == []
    decreases if n < 0 then 0 else n
  {
    if n > 0 {
      MessageAttachmentsSpec(n - 1, message);
    }
  }

  // ---------------------------------------------------------------- integers

  /** The white space int.TryParse skips at either end: U+0009 to U+000D and U+0020. */
  predicate IsParseWhite(c: char)
  {
    c == ' ' || '\t' <= c <= '\r'
  }

  function TrimStart(s: string): (r: string)
    ensures |r| <= |s| && r == s[|s| - |r|..]
    ensures r != [] ==> !IsParseWhite(r[0])
  {
    if s != [] && IsParseWhite(s[0]) then TrimStart(s[1..]) else s
  }

  function TrimEnd(s: string): (r: string)
    ensures |r| <= |s| && r == s[..|r|]
    ensures r != [] ==> !IsParseWhite(r[|r| - 1])
  {
    if s != [] && IsParseWhite(s[|s| - 1]) then TrimEnd(s[..|s| - 1]) else s
  }

  const Int32Min := -0x8000_0000
  const Int32Max := 0x7FFF_FFFF

  /** int.TryParse with the default integer style: white space, an optional sign, decimal digits, in 32-bit range. */
  function TryParseInt32(s: Option<string>): (r: Option<int>)
    ensures r.Some? ==> Int32Min <= r.value <= Int32Max
  {
    if s.None? then None
    else
      var t := TrimEnd(TrimStart(s.value));
      var negative := t != [] && t[0] == '-';
      var digits := if t != [] && (t[0] == '-' || t[0] == '+') then t[1..] else t;
      if digits == [] || !Strings.AllDigits(digits) then None
      else
        var magnitude: int := Strings.DigitsValue(digits);
        var v: int := if negative then 0 - magnitude else magnitude;
        if v < Int32Min || v > Int32Max then None else Some(v)
  }

  /** A count written by Int32.ToString() parses back to that count. */
  lemma TryParseNatToString(n: nat)
    requires n <= Int32Max
    ensures TryParseInt32(Some(Strings.NatToString(n))) == Some(n)
  {
    var s := Strings.NatToString(n);
    assert !IsParseWhite(s[0]);
    assert TrimStart(s) == s;
    assert !IsParseWhite(s[|s| - 1]);
    assert TrimEnd(s) == s;
    Strings.NatToStringValue(n);
  }

  // ---------------------------------------------------------------- activities

  /** Payload field lookup after the JSON round trip: a missing key reads as null. */
  function Field(payload: map<string, string>, name: string): Option<string>
  {
    if name in payload then Some(payload[name]) else None
  }

  /** PayloadToActivity; a null id reads as "". */
  function PayloadToActivity(payload: Option<map<string, string>>): (r: Result<Activity, HelperError>)
    ensures r.Failure? <==> payload.None?
  {
    if payload.None? then Failure(ArgumentNull("payload"))
    else
      var p := payload.value;
      var sender := OrElse(Field(p, "From"), Field(p, "Author"));
      var senderId := if sender.Some? then sender.value else "";
      var to := Field(p, "To");
      var numMedia := TryParseInt32(Field(p, "NumMedia"));
      Success(Activity(
        Message,
        if "MessageSid" in p then p["MessageSid"] else "",
        "whatsapp",
        senderId,
        if to.Some? then to.value else "",
        senderId,
        Field(p, "Body"),
        if numMedia.Some? && numMedia.value > 0 then Some(MessageAttachments(numMedia.value, p)) else None,
        []))
  }

  /**
   * The activity is a Message whose sender and conversation are both From
   * (Author when From is missing), whose recipient is To and whose text is
   * Body; it has attachments only when NumMedia parses to a positive count.
   */
  lemma PayloadToActivityFields(p: map<string, string>)
    ensures var a := PayloadToActivity(Some(p)).value;
      && a.kind == Message
      && a.fromId == a.conversationId
      && ("From" in p ==> a.fromId == p["From"])
      && ("From" !in p && "Author" in p ==> a.fromId == p["Author"])
      && ("To" in p ==> a.recipientId == p["To"])
      && a.text == Field(p, "Body")
      && (a.attachments.Some? <==> exists n :: TryParseInt32(Field(p, "NumMedia")) == Some(n) && n > 0)
      && (a.attachments.Some? ==> |a.attachments.value| <= TryParseInt32(Field(p, "NumMedia")).value)
  {
    var numMedia := TryParseInt32(Field(p, "NumMedia"));
    if numMedia.Some? && numMedia.value > 0 {
      MessageAttachmentsSpec(numMedia.value, p);
    }
  }

  /** The message options ActivityToGsWhatsApp builds. */
  datatype MessageOptions = MessageOptions(
    to: string,
    applicationSid: string,
    from: string,
    body: Option<string>,
    mediaUrls: seq<string>)

  /**
   * new Uri(attachment.ContentUrl): a null URL throws ArgumentNullException
   * and one that is not an absolute URI (isAbsoluteUri, the constructor's
   * parse) throws UriFormatException.
   */
  function UriOf(attachment: Attachment, isAbsoluteUri: string -> bool): (r: Result<string, HelperError>)
    ensures r.Success? <==> attachment.contentUrl.Some? && isAbsoluteUri(attachment.contentUrl.value)
    ensures r.Success? ==> Some(r.value) == attachment.contentUrl
    ensures attachment.contentUrl.None? ==> r == Failure(ArgumentNull("uriString"))
  {
    if attachment.contentUrl.None? then Failure(ArgumentNull("uriString"))
    else if !isAbsoluteUri(attachment.contentUrl.value) then Failure(UriFormat(attachment.contentUrl.value))
    else Success(attachment.contentUrl.value)
  }

  /** attachment => new Uri(attachment.ContentUrl), in order; the first attachment whose URI fails throws. */
  function MediaUrls(attachments: seq<Attachment>, isAbsoluteUri: string -> bool): (r: Result<seq<string>, HelperError>)
    ensures r.Success? ==> |r.value| == |attachments|
  {
    if attachments == [] then Success([])
    else
      var done := MediaUrls(attachments[..|attachments| - 1], isAbsoluteUri);
      var uri := UriOf(attachments[|attachments| - 1], isAbsoluteUri);
      if done.Failure? then done
      else if uri.Failure? then Failure(uri.error)
      else Success(done.value + [uri.value])
  }

  /**
   * The media URLs are the attachments' URLs in order, taken exactly when
   * every URL is an absolute URI; otherwise the exception is the one of the
   * first attachment whose URI fails.
   */
  lemma {:induction false} MediaUrlsSpec(attachments: seq<Attachment>, isAbsoluteUri: string -> bool)
    ensures MediaUrls(attachments, isAbsoluteUri).Success? <==>
      forall k :: 0 <= k < |attachments| ==> UriOf(attachments[k], isAbsoluteUri).Success?
    ensures MediaUrls(attachments, isAbsoluteUri).Success? ==>
      forall k :: 0 <= k < |attachments| ==> Some(MediaUrls(attachments, isAbsoluteUri).value[k]) == attachments[k].contentUrl
    ensures MediaUrls(attachments, isAbsoluteUri).Failure? ==>
      exists k :: 0 <= k < |attachments| && UriOf(attachments[k], isAbsoluteUri).Failure?
        && (forall j :: 0 <= j < k ==> UriOf(attachments[j], isAbsoluteUri).Success?)
        && MediaUrls(attachments, isAbsoluteUri).error == UriOf(attachments[k], isAbsoluteUri).error
  {
    if attachments != [] {
      var init := attachments[..|attachments| - 1];
      MediaUrlsSpec(init, isAbsoluteUri);
      assert forall k :: 0 <= k < |init| ==> init[k] == attachments[k];
      if MediaUrls(init, isAbsoluteUri).Failure? {
        var k :| 0 <= k < |init| && UriOf(init[k], isAbsoluteUri).Failure?
          && (forall j :: 0 <= j < k ==> UriOf(init[j], isAbsoluteUri).Success?)
          && MediaUrls(init, isAbsoluteUri).error == UriOf(init[k], isAbsoluteUri).error;
        assert UriOf(attachments[k], isAbsoluteUri).Failure?;
      } else if UriOf(attachments[|init|], isAbsoluteUri).Failure? {
        assert forall j :: 0 <= j < |init| ==> UriOf(attachments[j], isAbsoluteUri).Success?;
      }
    }
  }

  /** An empty or relative URL is not an absolute URI, so new Uri throws UriFormatException for it. */
  lemma MediaUrlsRejectsRelative(isAbsoluteUri: string -> bool, a: Attachment)
    requires a.contentUrl == Some("") && !isAbsoluteUri("")
    ensures MediaUrls([a], isAbsoluteUri) == Failure(UriFormat(""))
  {
    assert [a][..0] == [];
  }

  /** ActivityToGsWhatsApp: the null checks in order, then the field mapping. */
  function ActivityToGsWhatsApp(activity: Option<Activity>, number: Option<string>, isAbsoluteUri: string -> bool)
    : (r: Result<MessageOptions, HelperError>)
    ensures activity.None? ==> r == Failure(ArgumentNull("activity"))
    ensures activity.Some? && Strings.IsNullOrWhiteSpace(number) ==> r == Failure(ArgumentNull("GsWhatsAppNumber"))
  {
    if activity.None? then Failure(ArgumentNull("activity"))
    else if Strings.IsNullOrWhiteSpace(number) then Failure(ArgumentNull("GsWhatsAppNumber"))
    else
      var a := activity.value;
      var urls := if a.attachments.Some? then MediaUrls(a.attachments.value, isAbsoluteUri) else Success([]);
      if urls.Failure? then Failure(urls.error)
      else Success(MessageOptions(a.conversationId, a.conversationId, number.value, a.text, urls.value))
  }

  /** On success the options carry the number, the text and one media URL per attachment, in order. */
  lemma ActivityToGsWhatsAppFields(a: Activity, number: string, isAbsoluteUri: string -> bool)
    requires !Strings.IsNullOrWhiteSpace(Some(number))
    requires ActivityToGsWhatsApp(Some(a), Some(number), isAbsoluteUri).Success?
    ensures var o := ActivityToGsWhatsApp(Some(a), Some(number), isAbsoluteUri).value;
      && o.from == number && o.body == a.text && o.to == a.conversationId
      && |o.mediaUrls| == (if a.attachments.Some? then |a.attachments.value| else 0)
      && (a.attachments.Some? ==>
            forall k :: 0 <= k < |o.mediaUrls| ==> Some(o.mediaUrls[k]) == a.attachments.value[k].contentUrl)
  {
    if a.attachments.Some? {
      MediaUrlsSpec(a.attachments.value, isAbsoluteUri);
    }
  }
}
