/**
 * The records the bridge exchanges with the bot backend (activities,
 * attachments, hero cards) as already-decoded values. A string field the
 * source may leave null is "" here wherever null and "" behave alike
 * (string concatenation and IsNullOrEmpty); Option is used where they differ.
 */
module Schema {

  import opened Wrappers

  datatype CardAction = CardAction(kind: string, title: string, value: string)

  datatype CardImage = CardImage(url: string, alt: string, tap: Option<CardAction>)

  /** HeroCard.cs; Subtitle and Tap are carried but never rendered. */
  datatype HeroCard = HeroCard(
    title: string,
    subtitle: string,
    text: string,
    images: seq<CardImage>,
    buttons: seq<CardAction>,
    tap: Option<CardAction>)

  datatype ActivityType = Message | Event | OtherType(name: string)

  /**
   * An attachment: its content type, URL (None for a null ContentUrl),
   * name, thumbnail, and, for a hero card, its decoded content
   * (None when the content deserialises to null).
   */
  datatype Attachment = Attachment(
    contentType: string,
    contentUrl: Option<string>,
    name: string,
    thumbnailUrl: Option<string>,
    card: Option<HeroCard>)

  /** The fields of a Bot Framework / Direct Line activity that the bridge reads or writes. */
  datatype Activity = Activity(
    kind: ActivityType,
    id: string,
    channelId: string,
    fromId: string,
    recipientId: string,
    conversationId: string,
    text: Option<string>,
    attachments: Option<seq<Attachment>>,
    suggestedActions: seq<CardAction>)

  /** An attachment that carries only a content type and a URL. */
  function UrlAttachment(contentType: string, url: string): Attachment
  {
    Attachment(contentType, Some(url), "", None, None)
  }
}
