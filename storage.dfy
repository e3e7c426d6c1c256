/**
 * The browser's `localStorage` as the application uses it: a map from key
 * to the value stored there. A value is what the application wrote
 * (a list of videos, a list of accounts, a session user), the empty string,
 * or text `JSON.parse` rejects.
 */
module Storage {
  import opened Wrappers
  import YouTube
  import Accounts

  datatype StoredValue =
    | Empty                                          // "": falsy, so `getItem(k) || '[]'` reads `[]`
    | Corrupt                                        // text that `JSON.parse` rejects
    | VideoList(videos: seq<YouTube.VideoStats>)
    | AccountList(accounts: seq<Accounts.Account>)
    | SessionUser(user: Accounts.User)

  type Items = map<string, StoredValue>

  const UserKey := "user"
  const UsersKey := "users"
  const VideosPrefix := "videos_"

  predicate IsVideosKey(key: string)
  {
    |key| >= |VideosPrefix| && key[..|VideosPrefix|] == VideosPrefix
  }

  /** The value has the shape the application writes under this key. */
  predicate Fits(key: string, v: StoredValue)
  {
    v.Empty? || v.Corrupt?
    || (v.SessionUser? && key == UserKey)
    || (v.AccountList? && key == UsersKey)
    || (v.VideoList? && IsVideosKey(key))
  }

  /** Every key holds a value of its own shape. */
  predicate WellShaped(items: Items)
  {
    forall key :: key in items ==> Fits(key, items[key])
  }

  /** `JSON.parse(localStorage.getItem(key) || '[]')` read as a list of videos: None when it throws. */
  function LoadVideos(items: Items, key: string): (r: Option<seq<YouTube.VideoStats>>)
    ensures key !in items ==> r == Some([])
    ensures key in items && items[key].Empty? ==> r == Some([])
    ensures key in items && items[key].VideoList? ==> r == Some(items[key].videos)
    ensures WellShaped(items) && IsVideosKey(key) ==> (r.None? <==> key in items && items[key].Corrupt?)
  {
    if key !in items then Some([])
    else match items[key]
      case Empty => Some([])
      case VideoList(videos) => Some(videos)
      case _ => None
  }

  /** `JSON.parse(localStorage.getItem('users') || '[]')`: None when it throws. */
  function LoadAccounts(items: Items): (r: Option<seq<Accounts.Account>>)
    ensures UsersKey !in items ==> r == Some([])
    ensures UsersKey in items && items[UsersKey].Empty? ==> r == Some([])
    ensures UsersKey in items && items[UsersKey].AccountList? ==> r == Some(items[UsersKey].accounts)
    ensures WellShaped(items) ==> (r.None? <==> UsersKey in items && items[UsersKey].Corrupt?)
  {
    if UsersKey !in items then Some([])
    else match items[UsersKey]
      case Empty => Some([])
      case AccountList(accounts) => Some(accounts)
      case _ => None
  }

  /** The storage object; `setItem` and `removeItem` are its only writers. */
  class LocalStorage {
    var items: Items

    constructor (initial: Items)
      ensures items == initial
    {
      items := initial;
    }

    method SetItem(key: string, value: StoredValue)
      modifies this
      ensures items == old(items)[key := value]
    {
      items := items[key := value];
    }

    method RemoveItem(key: string)
      modifies this
      ensures items == old(items) - {key}
    {
      items := items - {key};
    }
  }

  /** The application's keys are pairwise different. */
  lemma KeysDistinct()
    ensures UserKey != UsersKey && !IsVideosKey(UserKey) && !IsVideosKey(UsersKey)
  {
    assert |UserKey| < |VideosPrefix|;
    assert UsersKey[0] != VideosPrefix[0];
  }
}
