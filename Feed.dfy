/** The page of tweets the fetch returns, as the decoded JSON body of a successful
    timeline request, and the lookup tables `main` builds from its `includes`. */
module Feed {
  import opened Wrappers

  /** One entry of `data`. `attachments` is the `attachments.media_keys` list when the
      tweet has an `attachments` object. */
  datatype Tweet = Tweet(
    id: string,
    authorId: string,
    text: string,
    createdAt: string,
    attachments: Option<seq<string>>)

  /** One entry of `includes.media`; of its fields only the key and the url are used. */
  datatype Media = Media(mediaKey: string, url: string)

  /** One entry of `includes.users`. */
  datatype User = User(id: string, name: string, username: string, profileImageUrl: string)

  datatype Includes = Includes(media: Option<seq<Media>>, users: Option<seq<User>>)

  /** The response body: `data` is absent when there are no new tweets. */
  datatype Response = Response(data: Option<seq<Tweet>>, includes: Option<Includes>)

  function MediaKeyOf(m: Media): string { m.mediaKey }

  function UserIdOf(u: User): string { u.id }

  /** The dictionary that results from `for x in xs: d[key(x)] = x`, starting empty:
      a later entry with the same key replaces an earlier one. */
  function IndexBy<T>(xs: seq<T>, key: T -> string): (index: map<string, T>)
    decreases |xs|
  {
    if xs == [] then map[]
    else IndexBy(xs[..|xs| - 1], key)[key(xs[|xs| - 1]) := xs[|xs| - 1]]
  }

  /** The index holds exactly the keys of the entries, and each key maps to the LAST
      entry that carries it. */
  lemma {:induction false} IndexByLastWins<T>(xs: seq<T>, key: T -> string, k: string)
    ensures k in IndexBy(xs, key) <==> exists i :: 0 <= i < |xs| && key(xs[i]) == k
    ensures k in IndexBy(xs, key) ==>
      exists i :: 0 <= i < |xs| && key(xs[i]) == k && IndexBy(xs, key)[k] == xs[i] &&
        forall j :: i < j < |xs| ==> key(xs[j]) != k
    decreases |xs|
  {
    if xs != [] {
      var n := |xs| - 1;
      var init := xs[..n];
      IndexByLastWins(init, key, k);
      if key(xs[n]) != k {
        if k in IndexBy(init, key) {
          var i :| 0 <= i < |init| && key(init[i]) == k && IndexBy(init, key)[k] == init[i] &&
            forall j :: i < j < |init| ==> key(init[j]) != k;
          assert xs[i] == init[i];
          assert forall j :: i < j < |xs| ==> key(xs[j]) != k by {
            forall j | i < j < |xs| ensures key(xs[j]) != k {
              if j < n { assert xs[j] == init[j]; }
            }
          }
        }
        assert (exists i :: 0 <= i < |xs| && key(xs[i]) == k) ==>
               (exists i :: 0 <= i < |init| && key(init[i]) == k) by {
          if i :| 0 <= i < |xs| && key(xs[i]) == k {
            assert i < n && init[i] == xs[i];
          }
        }
      }
    }
  }

  /** The `for` loop that fills `media_map` or `user_map`. */
  method BuildIndex<T>(xs: seq<T>, key: T -> string) returns (m: map<string, T>)
    ensures m == IndexBy(xs, key)
  {
    m := map[];
    var i := 0;
    while i < |xs|
      invariant 0 <= i <= |xs|
      invariant m == IndexBy(xs[..i], key)
    {
      assert xs[..i + 1][..i] == xs[..i];
      m := m[key(xs[i]) := xs[i]];
      i := i + 1;
    }
    assert xs[..|xs|] == xs;
  }
}
