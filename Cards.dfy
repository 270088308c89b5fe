/** The body of `main`'s loop over the fetched tweets: which tweets are resource-map
    posts, the embed card built for each, and the running maximum of the tweet ids
    that becomes the new `last_checked_id`. */
module Cards {
  import opened Wrappers
  import opened Strings
  import opened Feed

  /** The literal substrings looked for in a tweet's text; the third one is spelled
      "Invisble", and only that spelling matches. */
  const Hashtags: seq<string> := ["#AlphaReactors", "#アルファリアクター", "#InvisbleBoxNGS", "#GoldCrateNGS"]

  const EmbedColor: int := 16294421
  const FooterText: string := "Tweet created"
  const CardUsername: string := "Resource Locator"
  const CardCategory: string := "resource_map"
  const AuthorSuffix: string := " - Resource Maps"

  /** A tweet is a resource-map post when its text contains any of the hashtags. */
  predicate IsResourceMap(text: string)
  {
    exists i | 0 <= i < |Hashtags| :: Contains(text, Hashtags[i])
  }

  /** Only the literal spelling "#InvisbleBoxNGS" matches, not the correctly spelled
      hashtag "#InvisibleBoxNGS". */
  lemma CorrectSpellingDoesNotMatch()
    ensures !IsResourceMap("#InvisibleBoxNGS")
    ensures IsResourceMap("#InvisbleBoxNGS")
  {
    var s := "#InvisibleBoxNGS";
    forall i | 0 <= i < |Hashtags| ensures !Contains(s, Hashtags[i]) {
      var h := Hashtags[i];
      var d := if i == 2 then 6 else 1;
      assert s[d] != h[d];
      assert s[..|h|][d] == s[d];
      OnlyAtStart(s, h);
    }
    assert OccursAt("#InvisbleBoxNGS", Hashtags[2], 0);
  }

  /** A needle whose first character appears in `s` only at position 0 can only be
      found at position 0. */
  lemma OnlyAtStart(s: string, p: string)
    requires p != [] && forall i :: 0 < i < |s| ==> s[i] != p[0]
    requires !OccursAt(s, p, 0)
    ensures !Contains(s, p)
  {
  }

  datatype Footer = Footer(text: string)
  datatype EmbedAuthor = EmbedAuthor(name: string, iconUrl: string)
  datatype EmbedImage = EmbedImage(url: string)

  /** The embed fields of `embed_data`. `title`, `author` and `image` stand for keys that
      are always present and may be JSON null; `url` is None when the key is absent. */
  datatype Embed = Embed(
    id: string,
    title: Option<string>,
    description: string,
    timestamp: string,
    color: int,
    author: Option<EmbedAuthor>,
    footer: Footer,
    image: Option<EmbedImage>,
    url: Option<string>)

  /** `embed_data` with its two bookkeeping keys, `username` and `type`, kept apart from
      the embed that is posted. */
  datatype Card = Card(embed: Embed, username: string, category: string)

  function StatusUrl(username: string, tweetId: string): (url: string)
  {
    "https://twitter.com/" + username + "/status/" + tweetId
  }

  /** The image of the first media key that resolves in `media`. */
  function FirstImage(keys: seq<string>, media: map<string, Media>): (image: Option<EmbedImage>)
    decreases |keys|
  {
    if keys == [] then None
    else if keys[0] in media then Some(EmbedImage(media[keys[0]].url))
    else FirstImage(keys[1..], media)
  }

  /** There is an image exactly when some key resolves, and it is the url of the earliest
      resolving key; later keys play no part. */
  lemma {:induction false} FirstImageIff(keys: seq<string>, media: map<string, Media>)
    ensures FirstImage(keys, media).Some? <==> exists i :: 0 <= i < |keys| && keys[i] in media
    ensures FirstImage(keys, media).Some? ==>
      exists i :: 0 <= i < |keys| && keys[i] in media &&
        FirstImage(keys, media).value.url == media[keys[i]].url &&
        forall j :: 0 <= j < i ==> keys[j] !in media
    decreases |keys|
  {
    if keys != [] && keys[0] !in media {
      FirstImageIff(keys[1..], media);
      if FirstImage(keys, media).Some? {
        var i :| 0 <= i < |keys[1..]| && keys[1..][i] in media &&
          FirstImage(keys, media).value.url == media[keys[1..][i]].url &&
          forall j :: 0 <= j < i ==> keys[1..][j] !in media;
        assert keys[i + 1] in media;
        forall j | 0 <= j < i + 1 ensures keys[j] !in media {
          if j > 0 { assert keys[j] == keys[1..][j - 1]; }
        }
      }
      if i :| 0 <= i < |keys| && keys[i] in media {
        assert keys[1..][i - 1] in media;
      }
    }
  }

  /** The `for m in media_keys: ... break` loop that attaches the image. */
  method FindImage(keys: seq<string>, media: map<string, Media>) returns (image: Option<EmbedImage>)
    ensures image == FirstImage(keys, media)
  {
    image := None;
    var i := 0;
    while i < |keys|
      invariant 0 <= i <= |keys|
      invariant FirstImage(keys[i..], media) == FirstImage(keys, media)
    {
      if keys[i] in media {
        image := Some(EmbedImage(media[keys[i]].url));
        break;
      }
      assert keys[i..][1..] == keys[i + 1..];
      i := i + 1;
    }
  }

  /** The card built for a matching tweet. `iso` stands for parsing `created_at` and
      printing it back in ISO form. */
  function CardFor(t: Tweet, users: map<string, User>, media: map<string, Media>, iso: string -> string): (c: Card)
    ensures c.category == CardCategory && c.username == CardUsername
    ensures c.embed.id == t.id && c.embed.description == t.text && c.embed.timestamp == iso(t.createdAt)
    ensures c.embed.color == EmbedColor && c.embed.footer == Footer(FooterText)
    ensures c.embed.title.Some? <==> t.authorId in users
    ensures c.embed.url.Some? <==> t.authorId in users
    ensures c.embed.author.Some? <==> t.authorId in users
    ensures t.authorId in users ==>
      var u := users[t.authorId];
      && c.embed.title == Some(u.name)
      && c.embed.url == Some(StatusUrl(u.username, t.id))
      && c.embed.author == Some(EmbedAuthor(u.username + AuthorSuffix, u.profileImageUrl))
    ensures c.embed.image == if t.attachments.Some? then FirstImage(t.attachments.value, media) else None
  {
    var plain := Embed(t.id, None, t.text, iso(t.createdAt), EmbedColor, None, Footer(FooterText), None, None);
    var withAuthor :=
      if t.authorId in users then
        var u := users[t.authorId];
        plain.(title := Some(u.name), url := Some(StatusUrl(u.username, t.id)),
               author := Some(EmbedAuthor(u.username + AuthorSuffix, u.profileImageUrl)))
      else plain;
    var withImage :=
      if t.attachments.Some? then withAuthor.(image := FirstImage(t.attachments.value, media))
      else withAuthor;
    Card(withImage, CardUsername, CardCategory)
  }

  /** The positions, in fetch order, of the tweets that are resource-map posts. */
  function MatchedIndices(ts: seq<Tweet>): (idx: seq<nat>)
    ensures forall k :: 0 <= k < |idx| ==> idx[k] < |ts|
    ensures forall a, b :: 0 <= a < b < |idx| ==> idx[a] < idx[b]
    ensures forall j :: 0 <= j < |ts| ==> (j in idx <==> IsResourceMap(ts[j].text))
    decreases |ts|
  {
    if ts == [] then []
    else
      var n := |ts| - 1;
      assert forall j :: 0 <= j < n ==> ts[..n][j] == ts[j];
      MatchedIndices(ts[..n]) + if IsResourceMap(ts[n].text) then [n] else []
  }

  /** `map_tweets` after the loop: one card per matching tweet, in fetch order. */
  function CardsOf(ts: seq<Tweet>, users: map<string, User>, media: map<string, Media>, iso: string -> string): (cards: seq<Card>)
    ensures |cards| == |MatchedIndices(ts)|
    ensures forall k :: 0 <= k < |cards| ==> cards[k] == CardFor(ts[MatchedIndices(ts)[k]], users, media, iso)
    decreases |ts|
  {
    if ts == [] then []
    else
      var n := |ts| - 1;
      assert forall j :: 0 <= j < n ==> ts[..n][j] == ts[j];
      CardsOf(ts[..n], users, media, iso) + if IsResourceMap(ts[n].text) then [CardFor(ts[n], users, media, iso)] else []
  }

  /** No card is built exactly when no fetched tweet is a resource-map post. */
  lemma NoCardsIffNoMatch(ts: seq<Tweet>, users: map<string, User>, media: map<string, Media>, iso: string -> string)
    ensures CardsOf(ts, users, media, iso) == [] <==> forall j :: 0 <= j < |ts| ==> !IsResourceMap(ts[j].text)
  {
  }

  /** One step of `if last_checked_id < d["id"]: last_checked_id = d["id"]`. */
  function CursorStep(last: string, id: string): (cursor: string)
  {
    if Less(last, id) then id else last
  }

  /** The cursor after the loop, every fetched tweet counted, matching or not. */
  function CursorAfter(start: string, ts: seq<Tweet>): (cursor: string)
    decreases |ts|
  {
    if ts == [] then start else CursorStep(CursorAfter(start, ts[..|ts| - 1]), ts[|ts| - 1].id)
  }

  /** The cursor ends at the string-order maximum of its old value and every fetched id:
      it is not below any of them, and it is one of them. So it never moves backwards. */
  lemma {:induction false} CursorAfterIsMaximum(start: string, ts: seq<Tweet>)
    ensures !Less(CursorAfter(start, ts), start)
    ensures forall i :: 0 <= i < |ts| ==> !Less(CursorAfter(start, ts), ts[i].id)
    ensures CursorAfter(start, ts) == start || exists i :: 0 <= i < |ts| && CursorAfter(start, ts) == ts[i].id
    decreases |ts|
  {
    if ts == [] {
      LessIrreflexive(start);
    } else {
      var n := |ts| - 1;
      var init := ts[..n];
      var c0 := CursorAfter(start, init);
      var x := ts[n].id;
      CursorAfterIsMaximum(start, init);
      assert forall i :: 0 <= i < n ==> ts[i] == init[i];
      if Less(c0, x) {
        LessIrreflexive(x);
        if Less(x, start) { LessTransitive(c0, x, start); }
        forall i | 0 <= i < n ensures !Less(x, ts[i].id) {
          if Less(x, ts[i].id) { LessTransitive(c0, x, ts[i].id); }
        }
      } else {
        if c0 != start {
          var i :| 0 <= i < n && c0 == init[i].id;
          assert c0 == ts[i].id;
        }
      }
    }
  }

  /** Ids of different lengths are not compared as numbers: after "99", the id "100"
      leaves the cursor at "99". */
  lemma CursorComparesAsStrings()
    ensures CursorAfter("99", [Tweet("100", "1", "", "", None)]) == "99"
  {
  }

  /** `main`'s `for d in response["data"]` loop: builds the cards and advances the cursor. */
  method ScanTweets(tweets: seq<Tweet>, lastCheckedId: string, users: map<string, User>,
                    media: map<string, Media>, iso: string -> string)
    returns (cards: seq<Card>, cursor: string)
    ensures cards == CardsOf(tweets, users, media, iso)
    ensures cursor == CursorAfter(lastCheckedId, tweets)
  {
    cards := [];
    cursor := lastCheckedId;
    for i := 0 to |tweets|
      invariant cards == CardsOf(tweets[..i], users, media, iso)
      invariant cursor == CursorAfter(lastCheckedId, tweets[..i])
    {
      var d := tweets[i];
      assert tweets[..i + 1][..i] == tweets[..i];
      if IsResourceMap(d.text) {
        var embed := Embed(d.id, None, d.text, iso(d.createdAt), EmbedColor, None, Footer(FooterText), None, None);
        if d.authorId in users {
          var user := users[d.authorId];
          embed := embed.(title := Some(user.name));
          embed := embed.(url := Some(StatusUrl(user.username, d.id)));
          embed := embed.(author := Some(EmbedAuthor(user.username + AuthorSuffix, user.profileImageUrl)));
        }
        if d.attachments.Some? {
          var image := FindImage(d.attachments.value, media);
          if image.Some? {
            embed := embed.(image := image);
          }
        }
        cards := cards + [Card(embed, CardUsername, CardCategory)];
      }
      if Less(cursor, d.id) {
        cursor := d.id;
      }
    }
    assert tweets[..|tweets|] == tweets;
  }
}
