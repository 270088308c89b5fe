/** What `post_maps` does to the webhook channel and to the `Settings` section: the
    posts it issues (oldest card first), the message ids it records per card type, the
    deletes of the previously recorded ids and the new `last_<type>_posted_id` values. */
module Publish {
  import opened Wrappers
  import opened Strings
  import opened Cards

  const DisplayUsernameKey: string := "display_username"
  const Comma: char := ','

  /** The settings key holding the comma-joined message ids last posted for a type. */
  function RecordKey(category: string): (key: string)
  {
    "last_" + category + "_posted_id"
  }

  /** Different types have different record keys. */
  lemma RecordKeyInjective(a: string, b: string)
    requires RecordKey(a) == RecordKey(b)
    ensures a == b
  {
    assert a == RecordKey(a)[5..5 + |a|];
    assert b == RecordKey(b)[5..5 + |b|];
  }

  /** The JSON body of a webhook post: `content` is always null, one embed. */
  datatype Payload = Payload(content: Option<string>, username: string, embeds: seq<Embed>)

  /** A webhook request issued by a run. */
  datatype Call = Post(url: string, payload: Payload) | Delete(url: string)

  function PostUrl(webhook: string): string { webhook + "?wait=1" }

  function DeleteUrl(webhook: string, messageId: string): string { webhook + "/messages/" + messageId }

  /** Appending to the request log in two steps (the posts, then the deletes) gives the
      same log as appending both at once; `post_maps` and its loops use it to match
      their log to `PublishCalls`. */
  lemma AppendAssociative<T>(a: seq<T>, b: seq<T>, c: seq<T>)
    ensures (a + b) + c == a + (b + c)
  {
  }

  /** Python's `reversed(...)`. */
  function Reverse<T>(s: seq<T>): (r: seq<T>)
    ensures |r| == |s|
    ensures forall i :: 0 <= i < |s| ==> r[i] == s[|s| - 1 - i]
    decreases |s|
  {
    if s == [] then [] else Reverse(s[1..]) + [s[0]]
  }
  /** Reversing keeps the same elements. */
  lemma ReverseElements<T>(s: seq<T>)
    ensures forall x <- Reverse(s) :: x in s
  {
    forall x <- Reverse(s) ensures x in s {
      var i :| 0 <= i < |s| && Reverse(s)[i] == x;
      assert s[|s| - 1 - i] == x;
    }
  }


  /** The name a card is posted under: its own, or the stripped `display_username`
      when its own is empty. */
  function Sender(card: Card, settings: map<string, string>): (name: string)
    requires card.username == [] ==> DisplayUsernameKey in settings
  {
    if |card.username| == 0 then Strip(settings[DisplayUsernameKey]) else card.username
  }

  function PostOf(webhook: string, card: Card, settings: map<string, string>): (call: Call)
    requires card.username == [] ==> DisplayUsernameKey in settings
  {
    Post(PostUrl(webhook), Payload(None, Sender(card, settings), [card.embed]))
  }

  /** The posts issued for the cards of `order`, one each, in that order. */
  function PostCalls(webhook: string, order: seq<Card>, settings: map<string, string>): (calls: seq<Call>)
    requires forall c <- order :: c.username == [] ==> DisplayUsernameKey in settings
    ensures |calls| == |order|
    ensures forall i :: 0 <= i < |order| ==> calls[i] == PostOf(webhook, order[i], settings)
    decreases |order|
  {
    if order == [] then []
    else
      var n := |order| - 1;
      assert forall i :: 0 <= i < n ==> order[..n][i] == order[i];
      PostCalls(webhook, order[..n], settings) + [PostOf(webhook, order[n], settings)]
  }

  /** A successful post: the card's type and the id the webhook answered with. */
  datatype Posting = Posting(category: string, messageId: string)

  /** The successful posts of a run, in posting order. `results[k]` is the webhook's
      answer to the k-th post: `Some(id)` for status 200, None otherwise. */
  function Recorded(order: seq<Card>, results: seq<Option<string>>): (ps: seq<Posting>)
    requires |results| == |order|
    decreases |order|
  {
    if order == [] then []
    else
      var n := |order| - 1;
      Recorded(order[..n], results[..n]) +
        if results[n].Some? then [Posting(order[n].category, results[n].value)] else []
  }

  /** Every recorded posting comes from a successful post, and every successful post is
      recorded. */
  lemma {:induction false} RecordedIff(order: seq<Card>, results: seq<Option<string>>)
    requires |results| == |order|
    ensures forall p <- Recorded(order, results) :: exists k :: 0 <= k < |order| && results[k] == Some(p.messageId) && order[k].category == p.category
    ensures forall k :: 0 <= k < |order| && results[k].Some? ==> Posting(order[k].category, results[k].value) in Recorded(order, results)
    decreases |order|
  {
    if order != [] {
      var n := |order| - 1;
      RecordedIff(order[..n], results[..n]);
      assert forall k :: 0 <= k < n ==> order[..n][k] == order[k] && results[..n][k] == results[k];
    }
  }

  /** The keys of `posted_ids`, in insertion order: each type that got a successful post,
      once, in the order of its first one. */
  function Categories(ps: seq<Posting>): (cats: seq<string>)
    decreases |ps|
  {
    if ps == [] then []
    else
      var n := |ps| - 1;
      var cats := Categories(ps[..n]);
      if ps[n].category in cats then cats else cats + [ps[n].category]
  }

  lemma {:induction false} CategoriesIffPosted(ps: seq<Posting>)
    ensures forall t :: t in Categories(ps) <==> exists p <- ps :: p.category == t
    ensures forall i, j :: 0 <= i < j < |Categories(ps)| ==> Categories(ps)[i] != Categories(ps)[j]
    decreases |ps|
  {
    if ps != [] {
      var n := |ps| - 1;
      CategoriesIffPosted(ps[..n]);
      assert forall p <- ps[..n] :: p in ps;
      assert forall p <- ps :: p in ps[..n] || p == ps[n];
    }
  }

  /** `posted_ids[t]`: the ids of the successful posts of type `t`, in posting order. */
  function IdsFor(ps: seq<Posting>, t: string): (ids: seq<string>)
    decreases |ps|
  {
    if ps == [] then []
    else
      var n := |ps| - 1;
      IdsFor(ps[..n], t) + if ps[n].category == t then [ps[n].messageId] else []
  }

  lemma {:induction false} IdsForIff(ps: seq<Posting>, t: string)
    ensures forall x :: x in IdsFor(ps, t) <==> Posting(t, x) in ps
    decreases |ps|
  {
    if ps != [] {
      var n := |ps| - 1;
      IdsForIff(ps[..n], t);
      assert forall p <- ps :: p in ps[..n] || p == ps[n];
      assert forall p <- ps[..n] :: p in ps;
    }
  }

  /** The deletes of one stored record. */
  function DeletesFor(webhook: string, ids: seq<string>): (calls: seq<Call>)
    ensures |calls| == |ids|
    ensures forall i :: 0 <= i < |ids| ==> calls[i] == Delete(DeleteUrl(webhook, ids[i]))
    decreases |ids|
  {
    if ids == [] then [] else DeletesFor(webhook, ids[..|ids| - 1]) + [Delete(DeleteUrl(webhook, ids[|ids| - 1]))]
  }

  /** The deletes issued for the types `cats`, type by type: every id of the stored
      record, split at the commas. */
  function DeleteCalls(webhook: string, settings: map<string, string>, cats: seq<string>): (calls: seq<Call>)
    requires forall c <- cats :: RecordKey(c) in settings
    ensures forall c <- calls :: c.Delete?
    decreases |cats|
  {
    if cats == [] then []
    else
      var n := |cats| - 1;
      assert forall c <- cats[..n] :: c in cats;
      DeleteCalls(webhook, settings, cats[..n]) + DeletesFor(webhook, Split(settings[RecordKey(cats[n])], Comma))
  }

  /** The settings after the record of each type of `cats` is overwritten with the
      comma-join of that type's new ids. */
  function Replaced(settings: map<string, string>, ps: seq<Posting>, cats: seq<string>): (updated: map<string, string>)
    decreases |cats|
  {
    if cats == [] then settings
    else
      var n := |cats| - 1;
      Replaced(settings, ps, cats[..n])[RecordKey(cats[n]) := Join(IdsFor(ps, cats[n]), Comma)]
  }

  /** Each replaced type's record holds the join of its new ids; every other key keeps
      its value; no key disappears. */
  lemma {:induction false} ReplacedAt(settings: map<string, string>, ps: seq<Posting>, cats: seq<string>)
    ensures Replaced(settings, ps, cats).Keys == settings.Keys + set c | c in cats :: RecordKey(c)
    ensures forall c <- cats :: Replaced(settings, ps, cats)[RecordKey(c)] == Join(IdsFor(ps, c), Comma)
    ensures forall k :: k in settings && (forall c <- cats :: k != RecordKey(c)) ==> Replaced(settings, ps, cats)[k] == settings[k]
    decreases |cats|
  {
    if cats != [] {
      var n := |cats| - 1;
      var init := cats[..n];
      ReplacedAt(settings, ps, init);
      assert forall c <- cats :: c in init || c == cats[n];
      assert forall c <- init :: c in cats;
      forall c <- cats ensures Replaced(settings, ps, cats)[RecordKey(c)] == Join(IdsFor(ps, c), Comma) {
        if RecordKey(c) == RecordKey(cats[n]) {
          RecordKeyInjective(c, cats[n]);
        }
      }
    }
  }

  /** What `post_maps` needs of its inputs so that no `KeyError` is raised: one webhook
      answer per card, `display_username` when a card has no name of its own, and the
      stored record of every type that gets a successful post. */
  predicate CanPublish(settings: map<string, string>, cards: seq<Card>, results: seq<Option<string>>)
  {
    && |results| == |cards|
    && (forall c <- cards :: c.username == [] ==> DisplayUsernameKey in settings)
    && (forall k | 0 <= k < |cards| :: results[k].Some? ==> RecordKey(cards[|cards| - 1 - k].category) in settings)
  }

  /** The successful posts of publishing `cards`, which are posted in reverse. */
  function Postings(cards: seq<Card>, results: seq<Option<string>>): (ps: seq<Posting>)
    requires |results| == |cards|
  {
    Recorded(Reverse(cards), results)
  }

  lemma CanPublishKeys(settings: map<string, string>, cards: seq<Card>, results: seq<Option<string>>)
    requires CanPublish(settings, cards, results)
    ensures forall c <- Reverse(cards) :: c.username == [] ==> DisplayUsernameKey in settings
    ensures forall t <- Categories(Postings(cards, results)) :: RecordKey(t) in settings
  {
    var order := Reverse(cards);
    RecordedIff(order, results);
    CategoriesIffPosted(Recorded(order, results));
    ReverseElements(cards);
  }

  /** The `Settings` section after `post_maps(cards)`. */
  function PublishSettings(settings: map<string, string>, cards: seq<Card>, results: seq<Option<string>>): (updated: map<string, string>)
    requires CanPublish(settings, cards, results)
  {
    if |cards| == 0 then settings
    else
      var ps := Postings(cards, results);
      Replaced(settings, ps, Categories(ps))
  }

  /** The webhook requests `post_maps(cards)` issues: all posts, then all deletes. */
  function PublishCalls(webhook: string, settings: map<string, string>, cards: seq<Card>, results: seq<Option<string>>): (calls: seq<Call>)
    requires CanPublish(settings, cards, results)
  {
    if |cards| == 0 then []
    else
      CanPublishKeys(settings, cards, results);
      PostCalls(webhook, Reverse(cards), settings) + DeleteCalls(webhook, settings, Categories(Postings(cards, results)))
  }

  // ---------------------------------------------------------------------------
  // Properties of publishing
  // ---------------------------------------------------------------------------

  /** The ids of the successful posts of type `t`, in posting order: the reference
      against which the grouping into `posted_ids` is checked. */
  function SuccessIds(order: seq<Card>, results: seq<Option<string>>, t: string): (ids: seq<string>)
    requires |results| == |order|
    decreases |order|
  {
    if order == [] then []
    else
      var n := |order| - 1;
      SuccessIds(order[..n], results[..n], t) +
        if results[n].Some? && order[n].category == t then [results[n].value] else []
  }

  // One-step unfoldings, used where the loops of `post_maps` take a step.

  lemma PostCallsStep(webhook: string, order: seq<Card>, settings: map<string, string>, k: nat)
    requires k < |order|
    requires forall c <- order :: c.username == [] ==> DisplayUsernameKey in settings
    ensures forall c <- order[..k] :: c.username == [] ==> DisplayUsernameKey in settings
    ensures PostCalls(webhook, order[..k + 1], settings) == PostCalls(webhook, order[..k], settings) + [PostOf(webhook, order[k], settings)]
  {
  }

  lemma RecordedStep(order: seq<Card>, results: seq<Option<string>>, k: nat)
    requires |results| == |order| && k < |order|
    ensures Recorded(order[..k + 1], results[..k + 1]) ==
      Recorded(order[..k], results[..k]) + if results[k].Some? then [Posting(order[k].category, results[k].value)] else []
  {
    assert order[..k + 1][..k] == order[..k] && results[..k + 1][..k] == results[..k];
  }

  lemma CategoriesStep(ps: seq<Posting>, p: Posting)
    ensures Categories(ps + [p]) == if p.category in Categories(ps) then Categories(ps) else Categories(ps) + [p.category]
  {
  }

  lemma IdsForStep(ps: seq<Posting>, p: Posting, t: string)
    ensures IdsFor(ps + [p], t) == IdsFor(ps, t) + if p.category == t then [p.messageId] else []
  {
  }

  lemma DeleteCallsStep(webhook: string, settings: map<string, string>, cats: seq<string>, j: nat)
    requires j < |cats|
    requires forall c <- cats :: RecordKey(c) in settings
    ensures forall c <- cats[..j + 1] :: RecordKey(c) in settings
    ensures forall c <- cats[..j] :: RecordKey(c) in settings
    ensures DeleteCalls(webhook, settings, cats[..j + 1]) ==
      DeleteCalls(webhook, settings, cats[..j]) + DeletesFor(webhook, Split(settings[RecordKey(cats[j])], Comma))
  {
    assert forall c <- cats[..j + 1] :: c in cats;
    assert forall c <- cats[..j] :: c in cats;
    assert cats[..j + 1][..j] == cats[..j];
  }

  lemma ReplacedStep(settings: map<string, string>, ps: seq<Posting>, cats: seq<string>, j: nat)
    requires j < |cats|
    ensures Replaced(settings, ps, cats[..j + 1]) ==
      Replaced(settings, ps, cats[..j])[RecordKey(cats[j]) := Join(IdsFor(ps, cats[j]), Comma)]
  {
    assert cats[..j + 1][..j] == cats[..j];
  }

  /** Before the record of `cats[j]` is replaced, it still holds its stored value, the
      types being distinct. */
  lemma ReplacedBefore(settings: map<string, string>, ps: seq<Posting>, cats: seq<string>, j: nat)
    requires j < |cats|
    requires forall i, k :: 0 <= i < k < |cats| ==> cats[i] != cats[k]
    requires RecordKey(cats[j]) in settings
    ensures RecordKey(cats[j]) in Replaced(settings, ps, cats[..j])
    ensures Replaced(settings, ps, cats[..j])[RecordKey(cats[j])] == settings[RecordKey(cats[j])]
  {
    ReplacedAt(settings, ps, cats[..j]);
    forall c <- cats[..j] ensures RecordKey(cats[j]) != RecordKey(c) {
      if RecordKey(cats[j]) == RecordKey(c) { RecordKeyInjective(cats[j], c); }
    }
  }

  lemma IdsForOfNewCategory(ps: seq<Posting>, t: string)
    requires t !in Categories(ps)
    ensures IdsFor(ps, t) == []
  {
  }

  /** One step of `posted_ids[type].append(id)` (adding the key `type` first when it is
      new) keeps the keys in insertion order and each list equal to `IdsFor`. */
  lemma GroupStep(ps: seq<Posting>, p: Posting,
                  cats0: seq<string>, ids0: map<string, seq<string>>,
                  cats: seq<string>, ids: map<string, seq<string>>)
    requires cats0 == Categories(ps)
    requires forall t :: t in ids0 <==> t in cats0
    requires forall t <- cats0 :: ids0[t] == IdsFor(ps, t)
    requires cats == if p.category in ids0 then cats0 else cats0 + [p.category]
    requires forall t :: t in ids <==> t in ids0 || t == p.category
    requires p.category in ids && ids[p.category] == (if p.category in ids0 then ids0[p.category] else []) + [p.messageId]
    requires forall t | t in ids0 && t != p.category :: ids[t] == ids0[t]
    ensures cats == Categories(ps + [p])
    ensures forall t :: t in ids <==> t in cats
    ensures forall t <- cats :: ids[t] == IdsFor(ps + [p], t)
  {
    CategoriesStep(ps, p);
    if p.category !in ids0 {
      IdsForOfNewCategory(ps, p.category);
    }
    forall t <- cats ensures ids[t] == IdsFor(ps + [p], t) {
      IdsForStep(ps, p, t);
    }
  }

  lemma IdsForAppend(ps: seq<Posting>, more: seq<Posting>, t: string)
    requires |more| <= 1
    ensures IdsFor(ps + more, t) == IdsFor(ps, t) + IdsFor(more, t)
  {
    if |more| == 1 {
      IdsForStep(ps, more[0], t);
      IdsForStep([], more[0], t);
      assert more == [] + [more[0]];
    } else {
      assert ps + more == ps;
    }
  }

  /** Grouping the successful posts by type keeps, for each type, exactly its own
      successful ids in posting order. */
  lemma {:induction false} IdsForRecorded(order: seq<Card>, results: seq<Option<string>>, t: string)
    requires |results| == |order|
    ensures IdsFor(Recorded(order, results), t) == SuccessIds(order, results, t)
    decreases |order|
  {
    if order != [] {
      var n := |order| - 1;
      IdsForRecorded(order[..n], results[..n], t);
      var last := if results[n].Some? then [Posting(order[n].category, results[n].value)] else [];
      IdsForAppend(Recorded(order[..n], results[..n]), last, t);
      if last != [] {
        assert IdsFor(last, t) == IdsFor(last[..0], t) + if last[0].category == t then [last[0].messageId] else [];
      }
    }
  }

  lemma {:induction false} SuccessIdsIff(order: seq<Card>, results: seq<Option<string>>, t: string)
    requires |results| == |order|
    ensures forall x :: x in SuccessIds(order, results, t) <==>
      exists k :: 0 <= k < |order| && results[k] == Some(x) && order[k].category == t
    decreases |order|
  {
    if order != [] {
      var n := |order| - 1;
      SuccessIdsIff(order[..n], results[..n], t);
      assert forall k :: 0 <= k < n ==> order[..n][k] == order[k] && results[..n][k] == results[k];
    }
  }

  /** A type is among the keys of `posted_ids` exactly when it has a successful post. */
  lemma CategoriesIff(order: seq<Card>, results: seq<Option<string>>, t: string)
    requires |results| == |order|
    ensures t in Categories(Recorded(order, results)) <==> SuccessIds(order, results, t) != []
  {
    var ps := Recorded(order, results);
    IdsForRecorded(order, results, t);
    CategoriesIffPosted(ps);
    IdsForIff(ps, t);
    if t in Categories(ps) {
      var p :| p in ps && p.category == t;
      assert p.messageId in IdsFor(ps, t);
    }
    if SuccessIds(order, results, t) != [] {
      assert Posting(t, IdsFor(ps, t)[0]) in ps;
    }
  }

  /** Cards are posted oldest first (the reverse of their order), each with its own
      embed under its own name or the stripped `display_username`; all posts come
      before any delete. */
  lemma PostsInReverseOrder(webhook: string, settings: map<string, string>, cards: seq<Card>, results: seq<Option<string>>)
    requires CanPublish(settings, cards, results)
    ensures |PublishCalls(webhook, settings, cards, results)| >= |cards|
    ensures forall i :: 0 <= i < |cards| ==>
      var card := cards[|cards| - 1 - i];
      PublishCalls(webhook, settings, cards, results)[i] ==
        Post(PostUrl(webhook), Payload(None,
          if card.username == [] then Strip(settings[DisplayUsernameKey]) else card.username,
          [card.embed]))
    ensures forall i :: |cards| <= i < |PublishCalls(webhook, settings, cards, results)| ==>
      PublishCalls(webhook, settings, cards, results)[i].Delete?
  {
  }

  /** For a type with at least one successful post, the new record is the comma-join of
      exactly that type's successful ids of this run, in posting order, and splitting it
      gives them back when no id holds a comma. */
  lemma RecordReplaced(settings: map<string, string>, cards: seq<Card>, results: seq<Option<string>>, t: string)
    requires CanPublish(settings, cards, results)
    requires SuccessIds(Reverse(cards), results, t) != []
    ensures RecordKey(t) in PublishSettings(settings, cards, results)
    ensures PublishSettings(settings, cards, results)[RecordKey(t)] == Join(SuccessIds(Reverse(cards), results, t), Comma)
    ensures (forall x <- SuccessIds(Reverse(cards), results, t) :: Comma !in x) ==>
      Split(PublishSettings(settings, cards, results)[RecordKey(t)], Comma) == SuccessIds(Reverse(cards), results, t)
  {
    var ps := Postings(cards, results);
    CategoriesIff(Reverse(cards), results, t);
    IdsForRecorded(Reverse(cards), results, t);
    ReplacedAt(settings, ps, Categories(ps));
    if forall x <- SuccessIds(Reverse(cards), results, t) :: Comma !in x {
      SplitJoin(SuccessIds(Reverse(cards), results, t), Comma);
    }
  }

  /** Publishing changes no key other than the records of the types that got a
      successful post, and adds no key. */
  lemma OtherKeysUntouched(settings: map<string, string>, cards: seq<Card>, results: seq<Option<string>>)
    requires CanPublish(settings, cards, results)
    ensures PublishSettings(settings, cards, results).Keys == settings.Keys
    ensures forall k :: k in settings && (forall t :: SuccessIds(Reverse(cards), results, t) != [] ==> k != RecordKey(t)) ==>
      PublishSettings(settings, cards, results)[k] == settings[k]
  {
    if |cards| > 0 {
      var ps := Postings(cards, results);
      CanPublishKeys(settings, cards, results);
      ReplacedAt(settings, ps, Categories(ps));
      forall t <- Categories(ps) ensures SuccessIds(Reverse(cards), results, t) != [] {
        CategoriesIff(Reverse(cards), results, t);
      }
    }
  }

  /** A type none of whose cards was posted successfully keeps its stored record. */
  lemma UntouchedCategory(settings: map<string, string>, cards: seq<Card>, results: seq<Option<string>>, t: string)
    requires CanPublish(settings, cards, results)
    requires RecordKey(t) in settings
    requires forall k :: 0 <= k < |cards| && cards[|cards| - 1 - k].category == t ==> results[k].None?
    ensures RecordKey(t) in PublishSettings(settings, cards, results)
    ensures PublishSettings(settings, cards, results)[RecordKey(t)] == settings[RecordKey(t)]
  {
    OtherKeysUntouched(settings, cards, results);
    forall u | SuccessIds(Reverse(cards), results, u) != [] ensures RecordKey(t) != RecordKey(u) {
      SuccessIdsIff(Reverse(cards), results, u);
      var x := SuccessIds(Reverse(cards), results, u)[0];
      assert x in SuccessIds(Reverse(cards), results, u);
      if RecordKey(t) == RecordKey(u) {
        RecordKeyInjective(t, u);
      }
    }
  }

  /** When no post succeeds, the settings are unchanged and nothing is deleted. */
  lemma NoSuccessNoChange(webhook: string, settings: map<string, string>, cards: seq<Card>, results: seq<Option<string>>)
    requires CanPublish(settings, cards, results)
    requires forall k :: 0 <= k < |results| ==> results[k].None?
    ensures PublishSettings(settings, cards, results) == settings
    ensures forall c <- PublishCalls(webhook, settings, cards, results) :: c.Post?
  {
    RecordedNone(Reverse(cards), results);
    if |cards| > 0 {
      CanPublishKeys(settings, cards, results);
      assert Categories(Postings(cards, results)) == [];
      var posts := PostCalls(webhook, Reverse(cards), settings);
      assert PublishCalls(webhook, settings, cards, results) == posts + [];
    }
  }

  /** Without a 200 answer nothing is recorded. */
  lemma {:induction false} RecordedNone(order: seq<Card>, results: seq<Option<string>>)
    requires |results| == |order|
    requires forall k :: 0 <= k < |results| ==> results[k].None?
    ensures Recorded(order, results) == []
    decreases |order|
  {
    if order != [] {
      var n := |order| - 1;
      RecordedNone(order[..n], results[..n]);
    }
  }

  lemma {:induction false} DeleteCallsIff(webhook: string, settings: map<string, string>, cats: seq<string>)
    requires forall c <- cats :: RecordKey(c) in settings
    ensures forall t, id :: t in cats && RecordKey(t) in settings && id in Split(settings[RecordKey(t)], Comma) ==>
      Delete(DeleteUrl(webhook, id)) in DeleteCalls(webhook, settings, cats)
    ensures forall u :: Delete(u) in DeleteCalls(webhook, settings, cats) ==>
      exists t :: t in cats && RecordKey(t) in settings && exists id :: id in Split(settings[RecordKey(t)], Comma) && u == DeleteUrl(webhook, id)
    decreases |cats|
  {
    if cats != [] {
      var n := |cats| - 1;
      var init := cats[..n];
      assert forall c <- init :: c in cats;
      assert forall c <- cats :: c in init || c == cats[n];
      DeleteCallsIff(webhook, settings, init);
      var ids := Split(settings[RecordKey(cats[n])], Comma);
      var last := DeletesFor(webhook, ids);
      forall id | id in ids ensures Delete(DeleteUrl(webhook, id)) in last {
        var i :| 0 <= i < |ids| && ids[i] == id;
        assert last[i] == Delete(DeleteUrl(webhook, id));
      }
      forall u | Delete(u) in last
        ensures exists id :: id in ids && u == DeleteUrl(webhook, id)
      {
        var i :| 0 <= i < |last| && last[i] == Delete(u);
        assert ids[i] in ids;
      }
    }
  }

  /** The keys of `posted_ids` are exactly the types with a successful post. */
  lemma CategoriesOfPublish(cards: seq<Card>, results: seq<Option<string>>)
    requires |results| == |cards|
    ensures forall t :: t in Categories(Postings(cards, results)) <==> SuccessIds(Reverse(cards), results, t) != []
  {
    forall t ensures t in Categories(Postings(cards, results)) <==> SuccessIds(Reverse(cards), results, t) != [] {
      CategoriesIff(Reverse(cards), results, t);
    }
  }

  /** The deletes `post_maps` issues are those of `DeleteCalls`, after the posts. */
  lemma DeletesOfPublish(webhook: string, settings: map<string, string>, cards: seq<Card>, results: seq<Option<string>>)
    requires CanPublish(settings, cards, results)
    requires |cards| > 0
    ensures forall c :: c in PublishCalls(webhook, settings, cards, results) && c.Delete? <==>
      c in DeleteCalls(webhook, settings, (CanPublishKeys(settings, cards, results); Categories(Postings(cards, results))))
  {
  }

  /** Every id of the stored record of each type that got a successful post is sent for
      deletion, and nothing else is. */
  lemma DeletesAreOldRecords(webhook: string, settings: map<string, string>, cards: seq<Card>, results: seq<Option<string>>)
    requires CanPublish(settings, cards, results)
    ensures forall t, id :: SuccessIds(Reverse(cards), results, t) != [] && RecordKey(t) in settings && id in Split(settings[RecordKey(t)], Comma) ==>
      Delete(DeleteUrl(webhook, id)) in PublishCalls(webhook, settings, cards, results)
    ensures forall u :: Delete(u) in PublishCalls(webhook, settings, cards, results) ==>
      exists t :: SuccessIds(Reverse(cards), results, t) != [] && RecordKey(t) in settings &&
        exists id :: id in Split(settings[RecordKey(t)], Comma) && u == DeleteUrl(webhook, id)
  {
    CategoriesOfPublish(cards, results);
    if |cards| > 0 {
      CanPublishKeys(settings, cards, results);
      DeleteCallsIff(webhook, settings, Categories(Postings(cards, results)));
      DeletesOfPublish(webhook, settings, cards, results);
    } else {
      assert Reverse(cards) == [];
    }
  }

  /** An empty stored record is not skipped: `"".split(",")` is `[""]`, so a delete of
      the empty id is issued. */
  lemma EmptyRecordDeletesEmptyId(webhook: string, settings: map<string, string>, cards: seq<Card>, results: seq<Option<string>>, t: string)
    requires CanPublish(settings, cards, results)
    requires SuccessIds(Reverse(cards), results, t) != []
    requires RecordKey(t) in settings && settings[RecordKey(t)] == ""
    ensures Delete(DeleteUrl(webhook, "")) in PublishCalls(webhook, settings, cards, results)
  {
    DeletesAreOldRecords(webhook, settings, cards, results);
    assert "" in Split("", Comma);
  }

  /** Two runs in a row that both post type `t`: after the second, the record holds
      exactly the second run's ids, and every id of the first run was sent for deletion. */
  lemma ReplaceAcrossRuns(webhook: string, s0: map<string, string>,
                          cardsA: seq<Card>, resultsA: seq<Option<string>>,
                          cardsB: seq<Card>, resultsB: seq<Option<string>>, t: string)
    requires CanPublish(s0, cardsA, resultsA)
    requires CanPublish(PublishSettings(s0, cardsA, resultsA), cardsB, resultsB)
    requires SuccessIds(Reverse(cardsA), resultsA, t) != []
    requires SuccessIds(Reverse(cardsB), resultsB, t) != []
    requires forall x <- SuccessIds(Reverse(cardsA), resultsA, t) :: Comma !in x
    ensures var s2 := PublishSettings(PublishSettings(s0, cardsA, resultsA), cardsB, resultsB);
      RecordKey(t) in s2 && s2[RecordKey(t)] == Join(SuccessIds(Reverse(cardsB), resultsB, t), Comma)
    ensures forall x <- SuccessIds(Reverse(cardsA), resultsA, t) ::
      Delete(DeleteUrl(webhook, x)) in PublishCalls(webhook, PublishSettings(s0, cardsA, resultsA), cardsB, resultsB)
  {
    var s1 := PublishSettings(s0, cardsA, resultsA);
    RecordReplaced(s0, cardsA, resultsA, t);
    RecordReplaced(s1, cardsB, resultsB, t);
    DeletesAreOldRecords(webhook, s1, cardsB, resultsB);
  }

  /** The ids of the successful posts, in posting order, whatever their type. */
  function Successes(results: seq<Option<string>>): (ids: seq<string>)
    decreases |results|
  {
    if results == [] then []
    else
      var n := |results| - 1;
      Successes(results[..n]) + if results[n].Some? then [results[n].value] else []
  }

  /** When every card has type `t`, the ids recorded for `t` are all the successful
      ids, in posting order. */
  lemma {:induction false} SingleCategoryIds(order: seq<Card>, results: seq<Option<string>>, t: string)
    requires |results| == |order|
    requires forall c <- order :: c.category == t
    ensures SuccessIds(order, results, t) == Successes(results)
    decreases |order|
  {
    if order != [] {
      var n := |order| - 1;
      assert forall c <- order[..n] :: c in order;
      assert order[n] in order;
      SingleCategoryIds(order[..n], results[..n], t);
    }
  }
}
