/** One run of the bridge (`main` and `post_maps`): the `Settings` section of the
    configuration and the webhook requests issued so far are the state; the fetched
    response and the webhook's answers are inputs. */
module Pipeline {
  import opened Wrappers
  import opened Strings
  import opened Feed
  import opened Cards
  import opened Publish

  const CursorKey: string := "last_checked_id"

  /** `includes.media`, or nothing when either key is missing. */
  function MediaOf(r: Response): (media: seq<Media>)
  {
    if r.includes.Some? && r.includes.value.media.Some? then r.includes.value.media.value else []
  }

  /** `includes.users`, or nothing when either key is missing. */
  function UsersOf(r: Response): (users: seq<User>)
  {
    if r.includes.Some? && r.includes.value.users.Some? then r.includes.value.users.value else []
  }

  /** `map_tweets` once the loop over `data` has run. */
  function RunCards(r: Response, iso: string -> string): (cards: seq<Card>)
    requires r.data.Some?
  {
    CardsOf(r.data.value, IndexBy(UsersOf(r), UserIdOf), IndexBy(MediaOf(r), MediaKeyOf), iso)
  }

  /** The `Settings` section right after `last_checked_id` is written. */
  function CursorWritten(settings: map<string, string>, r: Response): (updated: map<string, string>)
    requires CursorKey in settings && r.data.Some?
  {
    settings[CursorKey := CursorAfter(settings[CursorKey], r.data.value)]
  }

  /** What a run needs to finish without a `KeyError`: a stored cursor, and whatever
      `post_maps` needs of the cards the run builds. `results[k]` is the webhook's
      answer to the k-th post. */
  predicate CanRun(settings: map<string, string>, r: Response, results: seq<Option<string>>, iso: string -> string)
  {
    && CursorKey in settings
    && (r.data.Some? ==> CanPublish(CursorWritten(settings, r), RunCards(r, iso), results))
  }

  /** The `Settings` section after a run. */
  function RunSettings(settings: map<string, string>, r: Response, results: seq<Option<string>>, iso: string -> string): (updated: map<string, string>)
    requires CanRun(settings, r, results, iso)
  {
    if r.data.None? then settings
    else
      var s1 := CursorWritten(settings, r);
      var cards := RunCards(r, iso);
      if |cards| > 0 then PublishSettings(s1, cards, results) else s1
  }

  /** The webhook requests a run issues. */
  function RunCalls(webhook: string, settings: map<string, string>, r: Response, results: seq<Option<string>>, iso: string -> string): (calls: seq<Call>)
    requires CanRun(settings, r, results, iso)
  {
    if r.data.None? then []
    else
      var s1 := CursorWritten(settings, r);
      var cards := RunCards(r, iso);
      if |cards| > 0 then PublishCalls(webhook, s1, cards, results) else []
  }

  // ---------------------------------------------------------------------------
  // Properties of a run
  // ---------------------------------------------------------------------------

  /** The cursor is not the record of any type. */
  lemma CursorKeyIsNoRecord(t: string)
    ensures CursorKey != RecordKey(t)
  {
    if |t| == 0 {
      assert RecordKey(t)[5] == '_' && CursorKey[5] == 'c';
    } else {
      assert |RecordKey(t)| > |CursorKey|;
    }
  }

  /** Without `data` (no new tweets) nothing is written and nothing is sent. */
  lemma NoDataNoChange(webhook: string, settings: map<string, string>, r: Response, results: seq<Option<string>>, iso: string -> string)
    requires CanRun(settings, r, results, iso)
    requires r.data.None?
    ensures RunSettings(settings, r, results, iso) == settings
    ensures RunCalls(webhook, settings, r, results, iso) == []
  {
  }

  /** With `data`, `last_checked_id` ends at the string-order maximum of its old value
      and the ids of every fetched tweet, resource map or not; it never moves backwards. */
  lemma CursorIsMaximum(settings: map<string, string>, r: Response, results: seq<Option<string>>, iso: string -> string)
    requires CanRun(settings, r, results, iso)
    requires r.data.Some?
    ensures CursorKey in RunSettings(settings, r, results, iso)
    ensures RunSettings(settings, r, results, iso)[CursorKey] == CursorAfter(settings[CursorKey], r.data.value)
    ensures !Less(RunSettings(settings, r, results, iso)[CursorKey], settings[CursorKey])
    ensures forall i :: 0 <= i < |r.data.value| ==> !Less(RunSettings(settings, r, results, iso)[CursorKey], r.data.value[i].id)
  {
    var s1 := CursorWritten(settings, r);
    var cards := RunCards(r, iso);
    if |cards| > 0 {
      OtherKeysUntouched(s1, cards, results);
      forall t ensures CursorKey != RecordKey(t) { CursorKeyIsNoRecord(t); }
    }
    CursorAfterIsMaximum(settings[CursorKey], r.data.value);
  }

  /** A run sends no request exactly when it has no data or no fetched tweet carries one
      of the hashtags; then only the cursor may change. */
  lemma NothingSentIffNoMatch(webhook: string, settings: map<string, string>, r: Response, results: seq<Option<string>>, iso: string -> string)
    requires CanRun(settings, r, results, iso)
    ensures RunCalls(webhook, settings, r, results, iso) == [] <==>
      r.data.None? || forall j :: 0 <= j < |r.data.value| ==> !IsResourceMap(r.data.value[j].text)
    ensures r.data.Some? && (forall j :: 0 <= j < |r.data.value| ==> !IsResourceMap(r.data.value[j].text)) ==>
      RunSettings(settings, r, results, iso) == CursorWritten(settings, r)
  {
  }

  /** A run adds no key, and changes none but the cursor and the records of the types
      that got a successful post. */
  lemma OnlyCursorAndRecordsChange(settings: map<string, string>, r: Response, results: seq<Option<string>>, iso: string -> string)
    requires CanRun(settings, r, results, iso)
    ensures RunSettings(settings, r, results, iso).Keys == settings.Keys
    ensures forall k ::
      (&& k in settings && k != CursorKey
       && (r.data.Some? ==> forall t :: SuccessIds(Reverse(RunCards(r, iso)), results, t) != [] ==> k != RecordKey(t)))
      ==> RunSettings(settings, r, results, iso)[k] == settings[k]
  {
    if r.data.Some? {
      var s1 := CursorWritten(settings, r);
      var cards := RunCards(r, iso);
      if |cards| > 0 {
        OtherKeysUntouched(s1, cards, results);
      }
    }
  }

  /** Every card a run builds has the one type the bridge knows. */
  lemma CardsAreResourceMaps(r: Response, iso: string -> string)
    requires r.data.Some?
    ensures forall c <- RunCards(r, iso) :: c.category == CardCategory
  {
  }

  /** So does every card it posts. */
  lemma PostedCardsAreResourceMaps(r: Response, iso: string -> string)
    requires r.data.Some?
    ensures forall c <- Reverse(RunCards(r, iso)) :: c.category == CardCategory
  {
    CardsAreResourceMaps(r, iso);
    ReverseElements(RunCards(r, iso));
  }

  lemma {:induction false} SuccessesEmpty(results: seq<Option<string>>)
    ensures Successes(results) == [] <==> forall k :: 0 <= k < |results| ==> results[k].None?
    decreases |results|
  {
    if results != [] {
      var n := |results| - 1;
      SuccessesEmpty(results[..n]);
      assert forall k :: 0 <= k < n ==> results[..n][k] == results[k];
    }
  }

  /** The record `last_resource_map_posted_id` after a run: when some post succeeded it
      holds the comma-join of all successful ids in posting order, and every id it held
      before was sent for deletion; when none did, nothing but the cursor changed. */
  lemma ResourceMapRecord(webhook: string, settings: map<string, string>, r: Response, results: seq<Option<string>>, iso: string -> string)
    requires CanRun(settings, r, results, iso)
    requires r.data.Some?
    ensures Successes(results) != [] ==>
      && RecordKey(CardCategory) in settings
      && RecordKey(CardCategory) in RunSettings(settings, r, results, iso)
      && RunSettings(settings, r, results, iso)[RecordKey(CardCategory)] == Join(Successes(results), Comma)
      && forall id <- Split(settings[RecordKey(CardCategory)], Comma) ::
           Delete(DeleteUrl(webhook, id)) in RunCalls(webhook, settings, r, results, iso)
    ensures Successes(results) == [] ==>
      && RunSettings(settings, r, results, iso) == CursorWritten(settings, r)
      && forall c <- RunCalls(webhook, settings, r, results, iso) :: c.Post?
  {
    var s1 := CursorWritten(settings, r);
    var cards := RunCards(r, iso);
    SuccessesEmpty(results);
    PostedCardsAreResourceMaps(r, iso);
    SingleCategoryIds(Reverse(cards), results, CardCategory);
    CursorKeyIsNoRecord(CardCategory);
    if Successes(results) != [] {
      RecordReplaced(s1, cards, results, CardCategory);
      DeletesAreOldRecords(webhook, s1, cards, results);
    } else if |cards| > 0 {
      NoSuccessNoChange(webhook, s1, cards, results);
    }
  }

  /** The settings map, the webhook requests issued so far, and the webhook url of the
      `Discord` section. */
  class Bridge {
    var settings: map<string, string>
    var calls: seq<Call>
    const webhookUrl: string

    constructor (settings: map<string, string>, webhookUrl: string)
      ensures this.settings == settings && this.webhookUrl == webhookUrl && calls == []
    {
      this.settings := settings;
      this.webhookUrl := webhookUrl;
      calls := [];
    }

    /** `post_maps(map_tweets)`. */
    method PostMaps(mapTweets: seq<Card>, results: seq<Option<string>>)
      requires CanPublish(settings, mapTweets, results)
      modifies this
      ensures settings == PublishSettings(old(settings), mapTweets, results)
      ensures calls == old(calls) + PublishCalls(webhookUrl, old(settings), mapTweets, results)
    {
      if |mapTweets| > 0 {
        CanPublishKeys(settings, mapTweets, results);
        var order := Reverse(mapTweets);
        ghost var calls0 := calls;
        var categories, postedIds := PostEach(order, results);
        DeleteAndReplace(categories, postedIds, Recorded(order, results));
        AppendAssociative(calls0, PostCalls(webhookUrl, order, old(settings)),
                          DeleteCalls(webhookUrl, old(settings), categories));
      }
    }

    /** The posting loop of `post_maps`: one post per card of `order`, and `posted_ids`
        (its keys in insertion order, and the dictionary) built from the answers. */
    method PostEach(order: seq<Card>, results: seq<Option<string>>)
      returns (categories: seq<string>, postedIds: map<string, seq<string>>)
      requires |results| == |order|
      requires forall c <- order :: c.username == [] ==> DisplayUsernameKey in settings
      modifies this
      ensures settings == old(settings)
      ensures calls == old(calls) + PostCalls(webhookUrl, order, settings)
      ensures categories == Categories(Recorded(order, results))
      ensures forall t :: t in postedIds <==> t in categories
      ensures forall t <- categories :: postedIds[t] == IdsFor(Recorded(order, results), t)
    {
      categories := [];
      postedIds := map[];
      ghost var ps: seq<Posting> := [];
      for k := 0 to |order|
        invariant settings == old(settings)
        invariant calls == old(calls) + PostCalls(webhookUrl, order[..k], settings)
        invariant ps == Recorded(order[..k], results[..k])
        invariant categories == Categories(ps)
        invariant forall t :: t in postedIds <==> t in categories
        invariant forall t <- categories :: postedIds[t] == IdsFor(ps, t)
      {
        PostCallsStep(webhookUrl, order, settings, k);
        RecordedStep(order, results, k);
        var mt := order[k];
        var category := mt.category;
        AppendAssociative(old(calls), PostCalls(webhookUrl, order[..k], settings), [PostOf(webhookUrl, mt, settings)]);
        PostCard(mt);
        if results[k].Some? {
          ghost var p := Posting(category, results[k].value);
          ghost var categories0, postedIds0 := categories, postedIds;
          if category !in postedIds {
            categories := categories + [category];
            postedIds := postedIds[category := []];
          }
          postedIds := postedIds[category := postedIds[category] + [results[k].value]];
          GroupStep(ps, p, categories0, postedIds0, categories, postedIds);
          ps := ps + [p];
        }
      }
      assert order[..|order|] == order && results[..|order|] == results;
    }

    /** The body of the posting loop up to `requests.post`: the sender name (the card's
        own, or the stripped `display_username`), the payload, and the post. */
    method PostCard(mt: Card)
      requires mt.username == [] ==> DisplayUsernameKey in settings
      modifies this
      ensures settings == old(settings)
      ensures calls == old(calls) + [PostOf(webhookUrl, mt, settings)]
    {
      var username := mt.username;
      if |username| == 0 {
        username := Strip(settings[DisplayUsernameKey]);
      }
      var data := Payload(None, username, [mt.embed]);
      calls := calls + [Post(PostUrl(webhookUrl), data)];
    }

    /** The second loop of `post_maps`: for each key of `posted_ids`, delete the stored
        ids, then store the new ones. */
    method DeleteAndReplace(categories: seq<string>, postedIds: map<string, seq<string>>, ghost ps: seq<Posting>)
      requires categories == Categories(ps)
      requires forall t <- categories :: t in postedIds && postedIds[t] == IdsFor(ps, t)
      requires forall t <- categories :: RecordKey(t) in settings
      modifies this
      ensures settings == Replaced(old(settings), ps, categories)
      ensures calls == old(calls) + DeleteCalls(webhookUrl, old(settings), categories)
    {
      CategoriesIffPosted(ps);
      var j := 0;
      while j < |categories|
        invariant 0 <= j <= |categories|
        invariant settings == Replaced(old(settings), ps, categories[..j])
        invariant calls == old(calls) + DeleteCalls(webhookUrl, old(settings), categories[..j])
      {
        var key := categories[j];
        ReplacedStep(old(settings), ps, categories, j);
        ReplacedBefore(old(settings), ps, categories, j);
        DeleteCallsStep(webhookUrl, old(settings), categories, j);
        var previousPostedIds := Split(settings[RecordKey(key)], Comma);
        AppendAssociative(old(calls), DeleteCalls(webhookUrl, old(settings), categories[..j]), DeletesFor(webhookUrl, previousPostedIds));
        if |previousPostedIds| > 0 {
          DeleteEach(previousPostedIds);
        }
        settings := settings[RecordKey(key) := Join(postedIds[key], Comma)];
        j := j + 1;
      }
      assert categories[..|categories|] == categories;
    }

    /** `for id in previous_posted_ids: requests.delete(delete_url + id)`. */
    method DeleteEach(ids: seq<string>)
      modifies this
      ensures settings == old(settings)
      ensures calls == old(calls) + DeletesFor(webhookUrl, ids)
    {
      for i := 0 to |ids|
        invariant settings == old(settings)
        invariant calls == old(calls) + DeletesFor(webhookUrl, ids[..i])
      {
        assert ids[..i + 1][..i] == ids[..i];
        calls := calls + [Delete(DeleteUrl(webhookUrl, ids[i]))];
      }
      assert ids[..|ids|] == ids;
    }

    /** `main()`, after the fetch: `response` is what `get_tweets` returned. */
    method Run(response: Response, results: seq<Option<string>>, iso: string -> string)
      requires CanRun(settings, response, results, iso)
      modifies this
      ensures settings == RunSettings(old(settings), response, results, iso)
      ensures calls == old(calls) + RunCalls(webhookUrl, old(settings), response, results, iso)
    {
      var lastCheckedId := settings[CursorKey];
      if response.data.Some? {
        var mediaMap: map<string, Media> := map[];
        if response.includes.Some? && response.includes.value.media.Some? {
          mediaMap := BuildIndex(response.includes.value.media.value, MediaKeyOf);
        }
        var userMap: map<string, User> := map[];
        if response.includes.Some? && response.includes.value.users.Some? {
          userMap := BuildIndex(response.includes.value.users.value, UserIdOf);
        }
        var mapTweets, cursor := ScanTweets(response.data.value, lastCheckedId, userMap, mediaMap, iso);
        settings := settings[CursorKey := cursor];
        if |mapTweets| > 0 {
          PostMaps(mapTweets, results);
        }
      }
    }
  }
}
