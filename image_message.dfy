/** The value object for an image sent as one datagram. */
module ImageMessage {
  import opened Wrappers
  import opened Bytes

  /** Largest image, in bytes, that fits one datagram. */
  const MaxImageSize: nat := 50000

  /** An image message: its fields are set once, by `Create`, and never changed. `recipient` is
      `None` (Java `null`) for a broadcast. */
  datatype ImageMessage = ImageMessage(
    sender: string,
    recipient: Option<string>,
    compressedImageData: seq<byte>,
    imageBase64: string)
  {
    /** `getSize()`: the number of bytes of image data. */
    function Size(): (n: nat)
      ensures n == |compressedImageData|
    {
      |compressedImageData|
    }

    /** `isWithinSize()`: the image fits the datagram limit. */
    predicate IsWithinSize() {
      Size() <= MaxImageSize
    }

    /** `isPrivate()`: there is a recipient and it is not the empty name. */
    predicate IsPrivate() {
      recipient.Some? && recipient.value != ""
    }
  }

  /** The constructor. The base64 text of the data is computed by java.util.Base64, which is not
      part of this model, so it is passed in. */
  function Create(sender: string, data: seq<byte>, recipient: Option<string>, base64: string): (m: ImageMessage)
    ensures m.sender == sender && m.recipient == recipient
    ensures m.compressedImageData == data && m.imageBase64 == base64
  {
    ImageMessage(sender, recipient, data, base64)
  }

  /** The size limit is inclusive: exactly `MaxImageSize` bytes fit and one more does not. */
  lemma SizeLimitInclusive(m: ImageMessage)
    ensures m.IsWithinSize() <==> |m.compressedImageData| <= 50000
  {
  }

  /** A missing recipient and an empty one both mean broadcast; any other name means private. */
  lemma PrivateIffNamedRecipient(sender: string, data: seq<byte>, recipient: Option<string>, base64: string)
    ensures Create(sender, data, recipient, base64).IsPrivate() <==> (recipient.Some? && recipient.value != "")
    ensures !Create(sender, data, None, base64).IsPrivate()
    ensures !Create(sender, data, Some(""), base64).IsPrivate()
  {
  }
}
