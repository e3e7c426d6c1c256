/**
 * The saved-video store of src/lib/db.ts: each user's list of videos lives
 * under the key `videos_<userId>`. The clock reading `new Date().toISOString()`
 * of `saveVideo` is the parameter `now`.
 */
module Db {
  import opened Wrappers
  import opened Storage
  import opened YouTube

  /** `` `videos_${userId}` ``. */
  function VideosKey(userId: string): string
  {
    VideosPrefix + userId
  }

  /** A video list holds an entry with this id. */
  predicate HasVideo(videos: seq<VideoStats>, id: string)
  {
    exists i :: 0 <= i < |videos| && videos[i].id == id
  }

  /** No two entries share an id. */
  predicate UniqueIds(videos: seq<VideoStats>)
  {
    forall i, j :: 0 <= i < j < |videos| ==> videos[i].id != videos[j].id
  }

  /** `{...video, savedAt: now}`: the copy carries `now` and every other field of `video`. */
  function Stamp(video: VideoStats, now: string): (r: VideoStats)
    ensures r.savedAt == Some(now) && r.id == video.id
    ensures r.(savedAt := video.savedAt) == video
  {
    video.(savedAt := Some(now))
  }

  /** `videos.filter(v => v.id !== id)`. */
  function Without(videos: seq<VideoStats>, id: string): (r: seq<VideoStats>)
    ensures !HasVideo(r, id)
    ensures forall v :: v in r <==> v in videos && v.id != id
    ensures !HasVideo(videos, id) ==> r == videos
    ensures |r| <= |videos|
  {
    if |videos| == 0 then []
    else if videos[0].id == id then Without(videos[1..], id)
    else [videos[0]] + Without(videos[1..], id)
  }

  /** `videos.find(v => v.id === id) || null`. */
  function First(videos: seq<VideoStats>, id: string): (r: Option<VideoStats>)
    ensures r.Some? <==> HasVideo(videos, id)
    ensures r.Some? ==> exists i :: 0 <= i < |videos| && videos[i] == r.value && videos[i].id == id
                                   && forall j :: 0 <= j < i ==> videos[j].id != id
  {
    if |videos| == 0 then None
    else if videos[0].id == id then Some(videos[0])
    else
      var r := First(videos[1..], id);
      if r.Some? then
        ghost var i :| 0 <= i < |videos[1..]| && videos[1..][i] == r.value && videos[1..][i].id == id
                         && forall j :: 0 <= j < i ==> videos[1..][j].id != id;
        assert videos[i + 1] == r.value;
        assert forall j :: 1 <= j < i + 1 ==> videos[j] == videos[1..][j - 1];
        r
      else r
  }

  /** `getSavedVideos(userId)`: the stored list; `[]` when the key is absent, empty or unreadable. */
  function GetSavedVideos(items: Items, userId: string): (r: seq<VideoStats>)
    ensures VideosKey(userId) in items && items[VideosKey(userId)].VideoList? ==> r == items[VideosKey(userId)].videos
    ensures VideosKey(userId) !in items || !items[VideosKey(userId)].VideoList? ==> r == []
  {
    LoadVideos(items, VideosKey(userId)).GetOr([])
  }

  /** `getVideoById(userId, videoId)`. */
  function GetVideoById(items: Items, userId: string, videoId: string): (r: Option<VideoStats>)
    ensures r.Some? <==> HasVideo(GetSavedVideos(items, userId), videoId)
    ensures r.Some? ==> r.value.id == videoId && r.value in GetSavedVideos(items, userId)
  {
    First(GetSavedVideos(items, userId), videoId)
  }

  /** The user's list can be read back (`JSON.parse` does not throw on it). */
  predicate Readable(items: Items, userId: string)
  {
    LoadVideos(items, VideosKey(userId)).Some?
  }

  /** The items after `saveVideo(userId, video)` at time `now`. */
  function AfterSave(items: Items, userId: string, video: VideoStats, now: string): (r: Items)
    ensures forall k :: k != VideosKey(userId) ==> (k in r <==> k in items) && (k in r ==> r[k] == items[k])
    ensures WellShaped(items) ==> WellShaped(r)
    ensures !Readable(items, userId) ==> r == items
  {
    var key := VideosKey(userId);
    match LoadVideos(items, key)
    case None => items
    case Some(videos) =>
      if HasVideo(videos, video.id) then items
      else items[key := VideoList(videos + [Stamp(video, now)])]
  }

  /** The items after `removeVideo(userId, videoId)`. */
  function AfterRemove(items: Items, userId: string, videoId: string): (r: Items)
    ensures forall k :: k != VideosKey(userId) ==> (k in r <==> k in items) && (k in r ==> r[k] == items[k])
    ensures WellShaped(items) ==> WellShaped(r)
    ensures !Readable(items, userId) ==> r == items
  {
    var key := VideosKey(userId);
    match LoadVideos(items, key)
    case None => items
    case Some(videos) => items[key := VideoList(Without(videos, videoId))]
  }

  /** The items after `clearAllVideos(userId)`. */
  function AfterClear(items: Items, userId: string): (r: Items)
    ensures forall k :: k != VideosKey(userId) ==> (k in r <==> k in items) && (k in r ==> r[k] == items[k])
    ensures VideosKey(userId) !in r
    ensures WellShaped(items) ==> WellShaped(r)
  {
    items - {VideosKey(userId)}
  }

  /** `saveVideo`: appends the stamped video unless its id is already stored; an unreadable list is left alone. */
  method SaveVideo(storage: LocalStorage, userId: string, video: VideoStats, now: string)
    modifies storage
    ensures storage.items == AfterSave(old(storage.items), userId, video, now)
  {
    var key := VideosKey(userId);
    var loaded := LoadVideos(storage.items, key);
    if loaded.None? {
      return;  // JSON.parse threw: the error is logged and swallowed
    }
    var existingVideos := loaded.value;
    var videoExists := HasVideo(existingVideos, video.id);
    if !videoExists {
      existingVideos := existingVideos + [Stamp(video, now)];
      storage.SetItem(key, VideoList(existingVideos));
    }
  }

  /** `removeVideo`: writes the filtered list back, also when nothing was removed. */
  method RemoveVideo(storage: LocalStorage, userId: string, videoId: string)
    modifies storage
    ensures storage.items == AfterRemove(old(storage.items), userId, videoId)
  {
    var key := VideosKey(userId);
    var loaded := LoadVideos(storage.items, key);
    if loaded.None? {
      return;
    }
    var filteredVideos := Without(loaded.value, videoId);
    storage.SetItem(key, VideoList(filteredVideos));
  }

  /** `clearAllVideos`. */
  method ClearAllVideos(storage: LocalStorage, userId: string)
    modifies storage
    ensures storage.items == AfterClear(old(storage.items), userId)
  {
    storage.RemoveItem(VideosKey(userId));
  }

  // ---------------------------------------------------------------------
  // Properties

  /** Different users have different keys, and no user's key is a session key. */
  lemma VideosKeyInjective(u: string, w: string)
    ensures VideosKey(u) == VideosKey(w) ==> u == w
    ensures IsVideosKey(VideosKey(u)) && VideosKey(u) != UserKey && VideosKey(u) != UsersKey
  {
    if VideosKey(u) == VideosKey(w) {
      assert u == VideosKey(u)[|VideosPrefix|..];
      assert w == VideosKey(w)[|VideosPrefix|..];
    }
    assert VideosKey(u)[..|VideosPrefix|] == VideosPrefix;
    KeysDistinct();
  }

  /** Saving a new id appends the stamped video at the end and keeps the earlier entries in order. */
  lemma SaveAppendsNew(items: Items, userId: string, video: VideoStats, now: string)
    requires Readable(items, userId) && !HasVideo(GetSavedVideos(items, userId), video.id)
    ensures GetSavedVideos(AfterSave(items, userId, video, now), userId)
            == GetSavedVideos(items, userId) + [Stamp(video, now)]
  {
  }

  /** Saving an id that is already stored, or into an unreadable list, changes nothing; the stored `savedAt` stays. */
  lemma SaveExistingIsNoOp(items: Items, userId: string, video: VideoStats, now: string)
    requires !Readable(items, userId) || HasVideo(GetSavedVideos(items, userId), video.id)
    ensures AfterSave(items, userId, video, now) == items
  {
  }

  /** After one save the id is stored, so a second save of the same video changes nothing. */
  lemma SaveIdempotent(items: Items, userId: string, video: VideoStats, t1: string, t2: string)
    ensures AfterSave(AfterSave(items, userId, video, t1), userId, video, t2) == AfterSave(items, userId, video, t1)
  {
    var once := AfterSave(items, userId, video, t1);
    if Readable(items, userId) && !HasVideo(GetSavedVideos(items, userId), video.id) {
      var videos := GetSavedVideos(once, userId);
      assert videos[|videos| - 1].id == video.id;
    }
  }

  /** Two saves of one video into an empty collection leave one entry, stamped by the first save. */
  lemma SaveTwiceKeepsOne(items: Items, userId: string, video: VideoStats, t1: string, t2: string)
    requires VideosKey(userId) !in items
    ensures GetSavedVideos(AfterSave(AfterSave(items, userId, video, t1), userId, video, t2), userId)
            == [Stamp(video, t1)]
  {
    SaveIdempotent(items, userId, video, t1, t2);
  }

  /** No save introduces a second entry with an id already stored. */
  lemma SaveKeepsIdsUnique(items: Items, userId: string, video: VideoStats, now: string)
    requires UniqueIds(GetSavedVideos(items, userId))
    ensures UniqueIds(GetSavedVideos(AfterSave(items, userId, video, now), userId))
  {
    var before := GetSavedVideos(items, userId);
    if Readable(items, userId) && !HasVideo(before, video.id) {
      var after := before + [Stamp(video, now)];
      assert GetSavedVideos(AfterSave(items, userId, video, now), userId) == after;
      forall i, j | 0 <= i < j < |after| ensures after[i].id != after[j].id {
        if j == |before| {
          assert after[i] == before[i];
        }
      }
    }
  }

  /** Removing stores the filtered list and keeps every other entry in order; an absent key becomes `[]`. */
  lemma RemoveFilters(items: Items, userId: string, videoId: string)
    requires Readable(items, userId)
    ensures var r := AfterRemove(items, userId, videoId);
      && VideosKey(userId) in r
      && GetSavedVideos(r, userId) == Without(GetSavedVideos(items, userId), videoId)
      && !HasVideo(GetSavedVideos(r, userId), videoId)
      && (VideosKey(userId) !in items ==> r[VideosKey(userId)] == VideoList([]))
  {
  }

  /** Removing an id that is not stored writes the same list back. */
  lemma RemoveAbsentKeepsList(items: Items, userId: string, videoId: string)
    requires !HasVideo(GetSavedVideos(items, userId), videoId)
    ensures GetSavedVideos(AfterRemove(items, userId, videoId), userId) == GetSavedVideos(items, userId)
  {
  }

  /** The filter distributes over concatenation: it keeps the relative order of the survivors. */
  lemma {:induction false} WithoutConcat(a: seq<VideoStats>, b: seq<VideoStats>, id: string)
    ensures Without(a + b, id) == Without(a, id) + Without(b, id)
    decreases |a|
  {
    if |a| == 0 {
      assert a + b == b;
    } else {
      assert (a + b)[0] == a[0];
      assert (a + b)[1..] == a[1..] + b;
      WithoutConcat(a[1..], b, id);
    }
  }

  /** After clearing, the user's list reads as empty and no video is found in it. */
  lemma ClearEmpties(items: Items, userId: string, videoId: string)
    ensures GetSavedVideos(AfterClear(items, userId), userId) == []
    ensures GetVideoById(AfterClear(items, userId), userId, videoId).None?
  {
  }

  /** `getVideoById` finds exactly the stored ids, returning the first entry with the id. */
  lemma FindAfterSave(items: Items, userId: string, video: VideoStats, now: string)
    requires Readable(items, userId) && !HasVideo(GetSavedVideos(items, userId), video.id)
    ensures GetVideoById(AfterSave(items, userId, video, now), userId, video.id) == Some(Stamp(video, now))
  {
    var before := GetSavedVideos(items, userId);
    var after := before + [Stamp(video, now)];
    SaveAppendsNew(items, userId, video, now);
    assert after[|before|].id == video.id;
    var r := First(after, video.id);
    var i :| 0 <= i < |after| && after[i] == r.value && after[i].id == video.id
             && forall j :: 0 <= j < i ==> after[j].id != video.id;
    forall j | 0 <= j < |before| ensures after[j].id != video.id {
      assert after[j] == before[j];
    }
  }

  /** Each operation on one user's videos leaves every other user's list and the account keys as they were. */
  lemma OtherUsersUntouched(items: Items, u: string, w: string, video: VideoStats, videoId: string, now: string)
    requires u != w
    ensures GetSavedVideos(AfterSave(items, u, video, now), w) == GetSavedVideos(items, w)
    ensures GetSavedVideos(AfterRemove(items, u, videoId), w) == GetSavedVideos(items, w)
    ensures GetSavedVideos(AfterClear(items, u), w) == GetSavedVideos(items, w)
    ensures forall k :: k == UserKey || k == UsersKey ==>
      && (k in AfterSave(items, u, video, now) <==> k in items)
      && (k in AfterRemove(items, u, videoId) <==> k in items)
      && (k in AfterClear(items, u) <==> k in items)
    ensures forall k :: (k == UserKey || k == UsersKey) && k in items ==>
      && AfterSave(items, u, video, now)[k] == items[k]
      && AfterRemove(items, u, videoId)[k] == items[k]
      && AfterClear(items, u)[k] == items[k]
  {
    VideosKeyInjective(u, w);
  }
}
