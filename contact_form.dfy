/**
 * The contact form's submit handler: it builds a greeting that carries the
 * visitor's name and phone, appends the optional message on a line of its
 * own, and turns the text into a WhatsApp deep link whose `text` parameter
 * is the encodeURIComponent encoding of that greeting.
 */
module ContactForm {
  import opened Wrappers
  import opened UriEncoding

  const Greeting: string := "Здравствуйте! Меня зовут "
  const PhoneLabel: string := ".\nМой номер: "
  /** The deep link to the shop's WhatsApp number, up to its `text` value. */
  const ChatLinkPrefix: string := "https://wa.me/77779501511?text="

  /** The fixed part: greeting, name and phone. */
  function Header(name: string, phone: string): string {
    Greeting + name + PhoneLabel + phone
  }

  /** The message text the handler builds; `if (message)` is false exactly
      for the empty string. The text starts with the greeting, the name and
      the phone; it has one more line holding the message exactly when the
      message is not empty, so an empty message leaves no trailing line. */
  function ChatMessage(name: string, phone: string, message: string): (m: string)
    ensures var h := Header(name, phone);
      |h| <= |m| && m[..|h|] == h &&
      (message == [] <==> |m| == |h|) &&
      (message != [] ==> m[|h|] == '\n' && m[|h| + 1..] == message)
  {
    var h := Header(name, phone);
    if message != [] then
      var m := h + ("\n" + message);
      assert m[..|h|] == h;
      assert m[|h| + 1..] == message;
      m
    else h
  }

  /** The partner of ChatMessage: what a reader of the chat message recovers
      as the typed message, given the name and phone it was built from. */
  function TypedMessage(text: string, name: string, phone: string): Option<string> {
    var h := Header(name, phone);
    if |text| < |h| || text[..|h|] != h then None
    else if |text| == |h| then Some([])
    else if text[|h|] == '\n' && |text| > |h| + 1 then Some(text[|h| + 1..])
    else None
  }

  /** Reading the typed message back out of the built text gives exactly
      what the visitor typed, the empty message included. */
  lemma TypedMessageRoundTrip(name: string, phone: string, message: string)
    ensures TypedMessage(ChatMessage(name, phone, message), name, phone) == Some(message)
  {
  }

  /** The deep link opened after submission. It is the fixed prefix followed
      by text in encodeURIComponent's output alphabet that decodes back to
      the chat message. */
  function ChatLink(name: string, phone: string, message: string): (url: string)
    ensures |ChatLinkPrefix| <= |url| && url[..|ChatLinkPrefix|] == ChatLinkPrefix
    ensures IsEncoded(url[|ChatLinkPrefix|..])
    ensures DecodeURIComponent(url[|ChatLinkPrefix|..]) == Some(ChatMessage(name, phone, message))
  {
    var text := ChatMessage(name, phone, message);
    var url := ChatLinkPrefix + EncodeURIComponent(text);
    assert url[|ChatLinkPrefix|..] == EncodeURIComponent(text);
    url
  }

  /** The link determines the typed message: two submissions with the same
      name and phone give the same link only when the messages are equal. */
  lemma ChatLinkDeterminesMessage(name: string, phone: string, m1: string, m2: string)
    requires ChatLink(name, phone, m1) == ChatLink(name, phone, m2)
    ensures m1 == m2
  {
    TypedMessageRoundTrip(name, phone, m1);
    TypedMessageRoundTrip(name, phone, m2);
  }

  /** A submission with an empty message: the link carries the greeting and
      the phone number and nothing after the phone. */
  lemma EmptyMessageExample()
    ensures ChatMessage("Aigerim", "+77001234567", "") ==
      "Здравствуйте! Меня зовут Aigerim.\nМой номер: +77001234567"
    ensures DecodeURIComponent(ChatLink("Aigerim", "+77001234567", "")[|ChatLinkPrefix|..]) ==
      Some("Здравствуйте! Меня зовут Aigerim.\nМой номер: +77001234567")
  {
    var m := ChatMessage("Aigerim", "+77001234567", "");
    assert m == Greeting + "Aigerim" + PhoneLabel + "+77001234567";
    assert Greeting + "Aigerim" + PhoneLabel + "+77001234567" ==
      "Здравствуйте! Меня зовут Aigerim.\nМой номер: +77001234567";
  }
}
