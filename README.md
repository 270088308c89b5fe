# PSO2 alpha reactor map bridge — a Dafny model of one run

The bridge polls one Twitter account's timeline for posts carrying the resource-map
hashtags. It turns each such post into a Discord embed and posts the embeds to a webhook,
oldest first. Then it replaces the previous run's webhook messages: it deletes the
message ids it stored last time and stores the ids of this run's successful posts.
The configuration's `Settings` section holds two kinds of key:

- `last_checked_id`, the id cursor the next fetch starts from;
- `last_<type>_posted_id`, a comma-separated list of message ids for each card type.

The model covers one invocation of `main` and the `post_maps` call inside it, in six
modules:

- `Wrappers`: `Option`, standing for JSON `null`, an absent key, or a webhook post
  that did not return status 200.
- `Strings`: the Python `str` operations the code relies on. `needle in text` is
  substring search (`Contains`). `a < b` is code-point lexicographic order (`Less`),
  so `"100" < "99"`. Also `s.split(",")` (`Split`, where `""` gives `[""]`),
  `",".join(...)` (`Join`) and `strip()` (`Strip`, using Python's whitespace set).
- `Feed`: the decoded timeline response (`data`, `includes.media`, `includes.users`).
  It also holds the loop that fills `media_map` and `user_map` (`BuildIndex`, where a
  later entry with the same key wins).
- `Cards`: the loop over `data`.
  - Classification against the four literal hashtags, the third spelled
    `#InvisbleBoxNGS`.
  - The embed of a matching tweet: its author fields, and the image of the first media
    key that resolves.
  - The running string-order maximum that becomes the new cursor.
- `Publish`: `post_maps` as specification functions.
  - The posts, in reverse card order.
  - The grouping of successful message ids by type, in dictionary insertion order.
  - The delete-then-replace of each posted type's record.
- `Pipeline`: the class `Bridge`, whose fields are the settings map and the log of
  webhook requests issued. Its methods mirror `main` (after the fetch) and `post_maps`
  and their loops: `Run`, `PostMaps`, `PostEach` (with `PostCard` for its body),
  `DeleteAndReplace` and `DeleteEach`. Each is proved against the specification
  functions. The file also holds the run-level lemmas.

External effects are inputs of the model:

- The fetched response is the `response` parameter of `Run`.
- The webhook's answers are a sequence `results`. `results[k]` is the answer to the
  k-th post issued: `Some(id)` for status 200, `None` otherwise.
- Parsing `created_at` and printing it in ISO form is an opaque function
  `iso: string -> string`.
- Deletes are recorded as issued requests. Their answers are ignored, as in the code.

## Model

| member | source | states |
|---|---|---|
| Strings.Contains | main.py:122 | defines Python's `needle in text`: the needle is a prefix of the text or of one of its suffixes |
| Strings.ContainsIff | main.py:122 | the substring search succeeds exactly when the needle occurs at some position of the text |
| Strings.Less | main.py:164 | defines Python's `<` on `str`: code-point lexicographic, a proper prefix being smaller |
| Strings.LessTotal | main.py:164-165 | any two different ids are ordered one way or the other |
| Strings.LessTransitive | main.py:164-165 | string order is transitive, so the running maximum dominates every earlier id |
| Strings.LessAsymmetric | main.py:164-165 | no two ids are each below the other |
| Strings.LessIrreflexive | main.py:164-165 | an id is never below itself, so an equal id leaves the cursor as it is |
| Strings.HundredBeforeNinetyNine | main.py:164 | ids are compared as text, not as numbers: "100" is below "99" |
| Strings.Split | main.py:80 | `split(",")` yields at least one piece, even for the empty record, and no piece holds a comma |
| Strings.Join | main.py:86 | defines Python's `",".join(value)`: the pieces in order with one separator between neighbours; no pieces give the empty string |
| Strings.JoinSplit | main.py:80-86 | joining the pieces of a split record gives back the record |
| Strings.SplitJoin | main.py:80-86 | splitting a stored comma-join gives back the ids, when there is at least one and none holds a comma |
| Strings.IsSpace | main.py:64 | defines the whitespace `strip()` removes: the characters for which Python's `str.isspace()` holds |
| Strings.Strip | main.py:64 | `strip()` returns a sub-string of its argument with only whitespace removed on either side, and the result neither begins nor ends with whitespace |
| Feed.IndexBy | main.py:101-110 | defines the dictionary `for x in xs: d[key(x)] = x` leaves, starting empty: later entries overwrite earlier ones with the same key |
| Feed.IndexByLastWins | main.py:101-110 | `media_map`/`user_map` hold exactly the keys of the listed entries, and each key maps to the last entry carrying it |
| Feed.BuildIndex | main.py:101-110 | the filling loop produces that dictionary |
| Cards.IsResourceMap | main.py:113-122 | defines the match: the text contains at least one of the four literal hashtags |
| Cards.CorrectSpellingDoesNotMatch | main.py:116 | "#InvisbleBoxNGS" matches and the correctly spelled "#InvisibleBoxNGS" does not |
| Cards.StatusUrl | main.py:147 | defines the tweet url: `https://twitter.com/<username>/status/<id>` |
| Cards.FirstImage | main.py:154-160 | defines the image: `{url}` of the first media key found in `media_map`, scanning the keys in order; none when no key is found |
| Cards.FirstImageIff | main.py:154-160 | there is an image exactly when some media key resolves, and it is the url of the earliest resolving key |
| Cards.FindImage | main.py:154-160 | the loop with `break` returns that first image, or none |
| Cards.CardFor | main.py:124-160 | fixed fields (id, description, timestamp, color, footer, username "Resource Locator", type "resource_map"); title, url and author are present exactly when the author is in `user_map`, and then hold the user's name, the status url and "<username> - Resource Maps" with the avatar; image is the first resolving media key's url when there are attachments, else none |
| Cards.MatchedIndices | main.py:120-122 | the matching positions, in bounds and strictly increasing, contain a position exactly when that tweet matches |
| Cards.CardsOf | main.py:120-162 | exactly one card per matching tweet, in fetch order, each being that tweet's card |
| Cards.NoCardsIffNoMatch | main.py:120-122 | no card is built exactly when no fetched tweet matches |
| Cards.CursorStep | main.py:164-165 | defines one step of the cursor: the tweet id when the cursor is below it in string order, else the cursor |
| Cards.CursorAfter | main.py:164-165 | defines the cursor after the loop: one step per fetched tweet, in fetch order, matched or not |
| Cards.CursorAfterIsMaximum | main.py:164-165 | the cursor ends not below its old value and not below any fetched id (matched or not), and equals one of them |
| Cards.CursorComparesAsStrings | main.py:164-165 | after "99", the id "100" leaves the cursor at "99" |
| Cards.ScanTweets | main.py:120-165 | the loop over `data` builds exactly those cards and that cursor |
| Publish.RecordKey | main.py:80-86 | defines a type's record key: `"last_" + type + "_posted_id"` |
| Publish.RecordKeyInjective | main.py:80-86 | different types have different record keys |
| Publish.Reverse | main.py:48 | the posting order is the card list read backwards |
| Publish.PostUrl | main.py:68 | defines the post url: the webhook url followed by `?wait=1` |
| Publish.DeleteUrl | main.py:78-83 | defines the delete url of one id: the webhook url, `/messages/`, then the id |
| Publish.Sender | main.py:62-65 | defines the sender name: the card's own username, or the stripped `display_username` when it is empty |
| Publish.PostOf | main.py:56-69 | defines one post: to `<webhook>?wait=1`, with no content, the sender name and the single embed without `username`/`type` |
| Publish.PostCalls | main.py:48-69 | one post per card, in posting order, to `<webhook>?wait=1`, carrying the embed without `username`/`type` and the sender name |
| Publish.Recorded | main.py:71-75 | defines the successful postings in posting order: the card's type and the returned id, for each 200 answer |
| Publish.Categories | main.py:73-79 | defines the keys of `posted_ids` in insertion order: each recorded type once, at its first successful post |
| Publish.IdsFor | main.py:73-75 | defines `posted_ids[t]`: the recorded ids of type `t`, in posting order |
| Publish.Postings | main.py:48-75 | defines the successful postings of `post_maps(cards)`: those of the cards in reverse order with their answers |
| Publish.RecordedIff | main.py:71-75 | every recorded posting is a 200 answer with its card's type, and every 200 answer is recorded |
| Publish.CategoriesIffPosted | main.py:73-79 | the keys of `posted_ids` are exactly the types with a recorded posting, each once |
| Publish.IdsForIff | main.py:73-75 | `posted_ids[t]` holds exactly the ids recorded under type `t` |
| Publish.IdsForRecorded | main.py:71-75 | `posted_ids[t]` is the 200-answer ids of type `t`, in posting order |
| Publish.SuccessIdsIff | main.py:71-75 | an id is among a type's successful ids exactly when some post of that type got it as answer |
| Publish.CategoriesIff | main.py:73-79 | a type is a key of `posted_ids` exactly when it has a successful post |
| Publish.DeletesFor | main.py:82-83 | defines the inner loop's requests: one delete of `<webhook>/messages/<id>` per id, in order |
| Publish.DeleteCalls | main.py:78-83 | the second loop issues only deletes |
| Publish.Replaced | main.py:79-86 | defines the settings after the second loop: for each key of `posted_ids` in order, its record overwritten by the comma-join of its ids |
| Publish.ReplacedAt | main.py:79-86 | after the second loop, each posted type's record is the comma-join of its new ids, all other keys keep their values, and no key is lost |
| Publish.CanPublish | main.py:63-80 | defines what `post_maps` needs to finish without `KeyError`: one answer per card, `display_username` when a card's name is empty, and the stored record of each type that gets a 200 answer |
| Publish.CanPublishKeys | main.py:63-80 | the preconditions give `display_username` where a card needs it, and a stored record for every posted type |
| Publish.PublishSettings | main.py:43-88 | defines the settings after `post_maps`: unchanged for an empty card list, else the records replaced as above |
| Publish.PublishCalls | main.py:43-88 | defines the requests of `post_maps`: none for an empty card list, else the posts in reverse card order followed by the deletes of each posted type's stored ids |
| Publish.PostsInReverseOrder | main.py:48-83 | the i-th request is the post of card `n-1-i`, under its own name or the stripped `display_username`; all posts come before any delete |
| Publish.RecordReplaced | main.py:79-86 | for a type with a successful post, the record becomes the comma-join of exactly this run's successful ids of that type in posting order, and splitting it gives them back when no id holds a comma |
| Publish.OtherKeysUntouched | main.py:79-86 | `post_maps` adds no key and changes only records of types with a successful post |
| Publish.UntouchedCategory | main.py:73-86 | a type none of whose posts succeeded keeps its stored record |
| Publish.NoSuccessNoChange | main.py:71-86 | when no post succeeds the settings are unchanged and only posts are issued |
| Publish.RecordedNone | main.py:71-75 | without a 200 answer nothing is recorded |
| Publish.DeleteCallsIff | main.py:79-83 | every stored id of each listed type is sent for deletion, and nothing else is |
| Publish.CategoriesOfPublish | main.py:71-79 | the types whose records are replaced are exactly those with a successful post |
| Publish.DeletesOfPublish | main.py:77-83 | the deletes among the requests are exactly the second loop's |
| Publish.DeletesAreOldRecords | main.py:77-83 | every previously stored id of each type with a successful post is deleted, and every delete is of such an id |
| Publish.EmptyRecordDeletesEmptyId | main.py:80-83 | an empty stored record still causes a delete of the empty id, since the length guard is always true |
| Publish.ReplaceAcrossRuns | main.py:77-86 | over two runs posting the same type, the first run's ids are all deleted by the second and the record holds only the second run's ids |
| Publish.SingleCategoryIds | main.py:71-75 | when all cards have one type, its recorded ids are all the successful ids in posting order |
| Pipeline.MediaOf | main.py:101-104 | defines the media list read: `includes.media` when both keys are present, else none |
| Pipeline.UsersOf | main.py:107-110 | defines the user list read: `includes.users` when both keys are present, else none |
| Pipeline.RunCards | main.py:120-162 | defines `map_tweets` after the loop: the cards of the fetched tweets, built with the two dictionaries |
| Pipeline.CanRun | main.py:94-174 | defines what a run needs to finish without `KeyError`: a stored `last_checked_id`, and what `post_maps` needs of the cards built, after the cursor write |
| Pipeline.CursorWritten | main.py:168 | defines the settings after the cursor write: `last_checked_id` set to the cursor after the loop |
| Pipeline.RunSettings | main.py:91-182 | defines the settings after `main`: unchanged without `data`; else the cursor written, then `post_maps` applied when a card was built |
| Pipeline.RunCalls | main.py:91-182 | defines the requests of `main`: none without `data` or without cards, else those of `post_maps` |
| Pipeline.CursorKeyIsNoRecord | main.py:168 | the cursor key is no type's record key |
| Pipeline.NoDataNoChange | main.py:180-182 | without `data` nothing is sent and the settings are unchanged |
| Pipeline.CursorIsMaximum | main.py:164-168 | with `data`, the stored cursor becomes the string-order maximum of its old value and every fetched id, and never moves backwards |
| Pipeline.NothingSentIffNoMatch | main.py:168-176 | no request is sent exactly when there is no data or no tweet matches; then only the cursor changes |
| Pipeline.OnlyCursorAndRecordsChange | main.py:168-174 | a run adds no key and changes only the cursor and the records of types with a successful post |
| Pipeline.CardsAreResourceMaps | main.py:140-162 | every card a run builds has type "resource_map" |
| Pipeline.PostedCardsAreResourceMaps | main.py:48-52 | so does every card posted, in reverse order |
| Pipeline.ResourceMapRecord | main.py:71-86 | after a run with a successful post, `last_resource_map_posted_id` holds all successful ids joined, and every id it held was deleted; with none, only the cursor changed and only posts were issued |
| Pipeline.Bridge.constructor | main.py:9-10 | the bridge starts from the given settings and webhook url, with no request issued |
| Pipeline.Bridge.DeleteEach | main.py:82-83 | the inner loop issues one delete per stored id, in order, and leaves the settings alone |
| Pipeline.Bridge.PostEach | main.py:48-75 | the posting loop issues the posts of `PostCalls` and builds `posted_ids` with its keys in insertion order |
| Pipeline.Bridge.PostCard | main.py:51-69 | one card's post: the sender name (own, or stripped `display_username`), the payload and the request, which is `PostOf`; the settings are unchanged |
| Pipeline.Bridge.DeleteAndReplace | main.py:77-86 | the second loop issues the deletes of `DeleteCalls` and leaves the settings as `Replaced` describes |
| Pipeline.Bridge.PostMaps | main.py:43-88 | `post_maps` leaves the settings and the request log as `PublishSettings` and `PublishCalls` describe |
| Pipeline.Bridge.Run | main.py:91-182 | `main` after the fetch leaves the settings and the request log as `RunSettings` and `RunCalls` describe |

## Left out

- The HTTP requests are not modelled. The fetch is the `response` parameter. The post
  answers are the `results` sequence. A delete is only logged.
- `get_tweets` request construction is not modelled: the endpoint, headers, the
  `start_time` window computed from today's date and `max_historical_days`, and the
  rule that `since_id` is sent only when the stored cursor is non-empty. These are
  clock access and request formatting.
- A non-200 fetch raises an exception before anything changes. The model starts
  after a successful fetch.
- Reading and writing `config.ini` is not modelled; the settings are an in-memory
  map. The file is written after the cursor and after each replaced record, but only
  the final map is modelled. `configparser`'s lower-casing of option names is not
  modelled either; every key the code uses is already lower case.
- `strptime`/`isoformat` are the opaque parameter `iso`. When `created_at` does not
  parse, `strptime` raises `ValueError` and the run aborts. The model does not
  capture that path.
- Missing keys are preconditions (`CanRun`, `CanPublish`), not modelled error paths.
  Each of them raises `KeyError` in the code:
  - `last_checked_id` absent;
  - `display_username` absent when a card has an empty username;
  - `last_<type>_posted_id` absent for a type with a successful post.
- The response datatypes cannot represent entries that lack a key the code reads,
  so the `KeyError` each of these would raise is not modelled:
  - a media entry without `media_key` (line 104), or without `url` when its key is the
    first to resolve (line 158), as a video entry has no `url`;
  - a user entry without `id` (line 110), or a matched author without `name`,
    `username` or `profile_image_url` (lines 146-150);
  - a tweet without `id`, `text`, `author_id` or `created_at`;
  - a matching tweet whose `attachments` object has no `media_keys` list (line 155):
    `Tweet.attachments` is that list itself;
  - a 200 answer from the webhook whose body has no `id` (lines 72-75): such an
    answer cannot be written as `Some(id)`.
- Removing `username` and `type` from each card in place becomes the projection
  `Card.embed`. No other alias of the card dictionaries is read afterwards.
- In the code, a tweet whose author is unknown has `"title": None` and `"author": None`
  but no `"url"` key at all. The model writes `None` in all three fields and reads them
  differently: for `title`, `author` and `image`, `None` is a key holding JSON null;
  for `url`, `None` means the key is absent. The JSON serialisation of the payload is
  not modelled.
- `print` logging is not modelled, nor is `print(response)`.
- The bearer token, user id and webhook url appear only as opaque strings.

The cursor comparison is a plain string comparison in the code, so `"99"` counts as
later than `"100"`. The model keeps this behaviour, matching the code.
