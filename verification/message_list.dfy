/** The chat transcript: which bot answers are shown as HTML, the newest-first
    order and the per-row fallbacks for the key, avatar and name. */
module MessageList {
  import opened Wrappers
  import opened JsString
  import ResponseHandler

  /** The characters a regular-expression `.` does not match. */
  predicate IsLineTerminator(c: char) {
    c == '\n' || c == '\r' || c == '\U{2028}' || c == '\U{2029}'
  }

  predicate NoLineBreak(s: string) {
    forall k :: 0 <= k < |s| ==> !IsLineTerminator(s[k])
  }

  /** `/<img.*?src="(.*?)".*?>/.test(s)`: on one line, `<img`, later `src="`,
      later a `"`, later a `>`. Laziness does not change whether a match exists. */
  predicate IsImageResponse(s: string) {
    exists i, j, k, m | 0 <= i < |s| && 0 <= j < |s| && 0 <= k < |s| && 0 <= m < |s| ::
      && i + 4 <= j && j + 5 <= k < m
      && OccursAt(s, "<img", i) && OccursAt(s, "src=\"", j) && s[k] == '"' && s[m] == '>'
      && NoLineBreak(s[i..m])
  }

  lemma NoLineBreakConcat(a: string, b: string)
    requires NoLineBreak(a) && NoLineBreak(b)
    ensures NoLineBreak(a + b)
  {
    forall p | 0 <= p < |a + b|
      ensures !IsLineTerminator((a + b)[p])
    {
      if p < |a| {
        assert (a + b)[p] == a[p];
      } else {
        assert (a + b)[p] == b[p - |a|];
      }
    }
  }

  /** A text that starts with `<img src="`, holds a later `"` and ends in `>`,
      all on one line, is an image response. */
  lemma TagShapeIsImageResponse(head: string, url: string, tail: string)
    requires OccursAt(head, "<img", 0) && OccursAt(head, "src=\"", 5) && |head| == 10
    requires |tail| >= 2 && tail[0] == '"' && tail[|tail| - 1] == '>'
    requires NoLineBreak(head + url + tail)
    ensures IsImageResponse(head + url + tail)
  {
    var tag := head + url + tail;
    var k := |head| + |url|;
    var m := |tag| - 1;
    assert tag[0..4] == head[0..4];
    assert tag[5..10] == head[5..10];
    assert tag[k] == tail[0];
    assert tag[m] == tail[|tail| - 1];
    assert NoLineBreak(tag[0..m]) by {
      forall p | 0 <= p < m
        ensures !IsLineTerminator(tag[0..m][p])
      {
        assert tag[0..m][p] == tag[p];
      }
    }
    assert OccursAt(tag, "<img", 0) && OccursAt(tag, "src=\"", 5);
  }

  /** The fixed pieces of the resolver's image tag are on one line. */
  lemma TagOpenOnOneLine()
    ensures NoLineBreak(ResponseHandler.ImageTagOpen) && NoLineBreak(ResponseHandler.ImageTagAlt)
  {
  }

  lemma TagCloseOnOneLine()
    ensures NoLineBreak(ResponseHandler.ImageTagClose)
  {
  }

  /** The resolver's tag is on one line when the URL and the brand are. */
  lemma ImageTagOneLine(url: string, brand: string)
    requires NoLineBreak(url) && NoLineBreak(brand)
    ensures NoLineBreak(ResponseHandler.ImageTag(url, brand))
  {
    var open, alt, close := ResponseHandler.ImageTagOpen, ResponseHandler.ImageTagAlt, ResponseHandler.ImageTagClose;
    TagOpenOnOneLine();
    TagCloseOnOneLine();
    NoLineBreakConcat(open, url);
    NoLineBreakConcat(open + url, alt);
    NoLineBreakConcat(open + url + alt, brand);
    NoLineBreakConcat(open + url + alt + brand, close);
  }

  /** The resolver's tag is `<img src="`, the URL, then a tail that opens with
      `"` and closes with `>`. */
  lemma ImageTagShape(url: string, brand: string)
    ensures var tag := ResponseHandler.ImageTag(url, brand);
            && |tag| >= 12 + |url|
            && tag == tag[..10] + url + tag[10 + |url|..]
            && OccursAt(tag[..10], "<img", 0) && OccursAt(tag[..10], "src=\"", 5)
            && tag[10 + |url|] == '"' && tag[|tag| - 1] == '>'
  {
    var open, alt, close := ResponseHandler.ImageTagOpen, ResponseHandler.ImageTagAlt, ResponseHandler.ImageTagClose;
    var tail := alt + brand + close;
    var tag := open + url + tail;
    assert ResponseHandler.ImageTag(url, brand) == tag;
    assert tag[..10] == open;
    assert tag[10 + |url|..] == tail;
    assert tag[10 + |url|] == alt[0] == '"';
    assert tag[|tag| - 1] == close[|close| - 1] == '>';
  }

  /** The tag the resolver builds for an image answer is recognised as one,
      provided the URL and the brand hold no line break. */
  lemma ImageTagIsImageResponse(url: string, brand: string)
    requires NoLineBreak(url) && NoLineBreak(brand)
    ensures IsImageResponse(ResponseHandler.ImageTag(url, brand))
  {
    var tag := ResponseHandler.ImageTag(url, brand);
    ImageTagOneLine(url, brand);
    ImageTagShape(url, brand);
    TagShapeIsImageResponse(tag[..10], url, tag[10 + |url|..]);
  }

  // ---------------------------------------------------------------------------
  // The rows

  /** A message as the transcript receives it; an `_id` of "" is a missing one. */
  datatype ChatMessage = ChatMessage(id: string, text: string, response: string)

  datatype Profile = Profile(avatar: string)

  datatype AuthUser = AuthUser(name: string)

  datatype RowKey = IdKey(id: string) | IndexKey(index: nat)

  /** How the bot's answer is shown: as HTML or as plain text. */
  datatype BotContent = Html(html: string) | Text(text: string)

  datatype Row = Row(key: RowKey, avatar: string, name: string, userText: string, bot: BotContent)

  const DefaultAvatar := "https://cdn-icons-png.freepik.com/512/3177/3177440.png"
  const FallbackName := "You"

  /** `messages.slice(0).reverse()`: a reversed copy. */
  function Reverse<T>(s: seq<T>): (r: seq<T>)
    ensures |r| == |s|
    ensures forall i :: 0 <= i < |s| ==> r[i] == s[|s| - 1 - i]
  {
    seq(|s|, i requires 0 <= i < |s| => s[|s| - 1 - i])
  }

  lemma ReverseReverse<T>(s: seq<T>)
    ensures Reverse(Reverse(s)) == s
  {
  }

  function Avatar(profile: Option<Profile>): string {
    if profile.Some? then profile.value.avatar else DefaultAvatar
  }

  function DisplayName(user: Option<AuthUser>): string {
    if user.Some? then user.value.name else FallbackName
  }

  function ShowAnswer(response: string): BotContent {
    if IsImageResponse(response) then Html(response) else Text(response)
  }

  /** The row for a message at `index` of the reversed list. */
  function RowFor(message: ChatMessage, index: nat, profile: Option<Profile>, user: Option<AuthUser>): Row {
    var key := if message.id != "" then IdKey(message.id) else IndexKey(index);
    Row(key, Avatar(profile), DisplayName(user), message.text, ShowAnswer(message.response))
  }

  /** The transcript. */
  function Rows(messages: seq<ChatMessage>, profile: Option<Profile>, user: Option<AuthUser>): (r: seq<Row>)
    ensures |r| == |messages|
  {
    var newestFirst := Reverse(messages);
    seq(|newestFirst|, i requires 0 <= i < |newestFirst| => RowFor(newestFirst[i], i, profile, user))
  }

  /** Row `i` shows the `i`-th newest message: its text, its answer as HTML exactly
      when it is an image response, the id as key when present and the row index
      otherwise, the profile avatar once loaded and the user's name when signed in. */
  lemma RowsShowNewestFirst(messages: seq<ChatMessage>, profile: Option<Profile>, user: Option<AuthUser>, i: nat)
    requires i < |messages|
    ensures var rows := Rows(messages, profile, user);
            var m := messages[|messages| - 1 - i];
            && |rows| == |messages|
            && rows[i].userText == m.text
            && (rows[i].bot.Html? <==> IsImageResponse(m.response))
            && (rows[i].bot.Html? ==> rows[i].bot.html == m.response)
            && (rows[i].bot.Text? ==> rows[i].bot.text == m.response)
            && rows[i].key == (if m.id != "" then IdKey(m.id) else IndexKey(i))
            && rows[i].avatar == (if profile.Some? then profile.value.avatar else DefaultAvatar)
            && rows[i].name == (if user.Some? then user.value.name else FallbackName)
  {
  }

  /** The newest message is shown first and the oldest last. */
  lemma NewestFirst(messages: seq<ChatMessage>, profile: Option<Profile>, user: Option<AuthUser>)
    requires |messages| > 0
    ensures Rows(messages, profile, user)[0].userText == messages[|messages| - 1].text
    ensures Rows(messages, profile, user)[|messages| - 1].userText == messages[0].text
  {
  }
}
