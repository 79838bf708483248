/**
 * The profile service: the empty-id guards, who may view a profile, and the relative path an
 * uploaded profile or banner image is stored under. Opening, creating and copying files are not
 * modelled; the Unix second of the upload is the parameter `unix`.
 */
module ProfileService {
  import opened Wrappers
  import Text
  import Filestore
  import FollowRepository
  import ChatRepository
  import opened ProfileRepository

  /** `ValidateProfileViewRequest`: oneself, a public profile, or one the viewer follows. */
  function ValidateProfileViewRequest(store: ProfileStore, u: string, target: string): (r: Result<bool>)
    reads store
    ensures u == target ==> r == Ok(true)
    ensures u != target && target !in store.users ==> r == Err("failed to check profile visibility: user not found")
    ensures u != target && target in store.users ==>
      r.Ok? && (r.value <==> store.users[target].isPublic || FollowRepository.IsFollowing(store.links, u, target))
  {
    if u == target then Ok(true)
    else
      match store.IsUserProfilePublic(target)
      // the repository's only error here is "user not found", wrapped
      case Err(_) => Err("failed to check profile visibility: user not found")
      case Ok(isPublic) =>
        if isPublic then Ok(true) else Ok(FollowRepository.IsFollowing(store.links, u, target))
  }

  /** The `is_public` column of every user, as the chat permission reads it. */
  function PublicFlags(users: map<string, UserRow>): (flags: map<string, bool>)
    ensures flags.Keys == users.Keys
    ensures forall v :: v in flags ==> flags[v] == users[v].isPublic
  {
    map v | v in users :: users[v].isPublic
  }

  /**
   * Whoever may view another user's profile may also write to that user: both rest on the
   * target being public or followed by the viewer.
   */
  lemma ViewableIsReachable(store: ProfileStore, u: string, target: string)
    requires u != target && ValidateProfileViewRequest(store, u, target) == Ok(true)
    ensures ChatRepository.CanSendMessage(store.links, PublicFlags(store.users), u, target)
  {
  }

  /** The combined row `GetUserProfileByID` scans: the users row and, if present, the profile row. */
  datatype ProfileData = ProfileData(user: UserRow, profile: Option<ProfileRow>)

  /** `GetProfileByUserID`: the empty-id guard in front of the repository's joined read. */
  function GetProfileByUserID(store: ProfileStore, u: string): (r: Result<ProfileData>)
    reads store
    ensures u == "" ==> r == Err("user ID is required")
    ensures u != "" && u !in store.users ==> r == Err("user profile not found")
    ensures r.Ok? <==> u != "" && u in store.users
    ensures r.Ok? ==> r.value.user == store.users[u]
    ensures r.Ok? ==> (r.value.profile.Some? <==> u in store.profiles)
    ensures r.Ok? && u in store.profiles ==> r.value.profile == Some(store.profiles[u])
  {
    if u == "" then Err("user ID is required")
    else if u !in store.users then Err("user profile not found")
    else Ok(ProfileData(store.users[u], if u in store.profiles then Some(store.profiles[u]) else None))
  }

  /** `UpdateProfile`: refuses an empty id, otherwise the repository's field-selecting update. */
  method UpdateProfile(store: ProfileStore, u: string, form: Form, now: int) returns (r: Status)
    modifies store
    ensures r.Failure? <==> u == ""
    ensures r.Failure? ==> r.msg == "user ID is required" && store.users == old(store.users) && store.profiles == old(store.profiles)
    ensures r.Success? && TouchesUser(form) && u in old(store.users) ==>
      GetProfileByUserID(store, u).Ok? && GetProfileByUserID(store, u).value.user == UserUpdated(old(store.users)[u], form, now)
    ensures r.Success? && Picks(form, FieldMappings, |FieldMappings|) != [] && u in old(store.profiles) ==>
      u in store.profiles && ProfileUpdated(old(store.profiles)[u], store.profiles[u], form, now, FieldMappings)
    ensures store.links == old(store.links) && store.users.Keys == old(store.users.Keys)
  {
    if u == "" {
      return Failure("user ID is required");
    }
    store.UpdateUserProfile(u, form, now);
    return Success;
  }

  /** `saveImage`: `<imageType>/<userID>_<imageType>_<unix><ext>`. */
  function ImagePath(u: string, filename: string, imageType: string, unix: int): (path: string)
    ensures Text.StartsWith(path, imageType + "/" + u + "_" + imageType + "_")
    ensures Text.EndsWith(path, Filestore.Ext(filename))
  {
    var name := u + "_" + imageType + "_" + Text.IntToString(unix) + Filestore.Ext(filename);
    var path := imageType + "/" + name;
    assert path == (imageType + "/" + u + "_" + imageType + "_") + (Text.IntToString(unix) + Filestore.Ext(filename));
    assert path == (imageType + "/" + u + "_" + imageType + "_" + Text.IntToString(unix)) + Filestore.Ext(filename);
    path
  }

  /** The stored image keeps the uploaded file's extension. */
  lemma ImageKeepsExtension(u: string, filename: string, imageType: string, unix: int)
    requires Filestore.Ext(filename) != ""
    ensures Filestore.Ext(ImagePath(u, filename, imageType, unix)) == Filestore.Ext(filename)
  {
    var prefix := imageType + "/" + u + "_" + imageType + "_" + Text.IntToString(unix);
    assert ImagePath(u, filename, imageType, unix) == prefix + Filestore.Ext(filename);
    Filestore.ExtOfSuffix(prefix, filename);
  }

  /** The nil-file short-circuit before `saveImage`: no file gives "" and no error; otherwise a path under the image directory. */
  function SaveImage(u: string, file: Option<string>, imageType: string, unix: int): (path: string)
    ensures file.None? ==> path == ""
    ensures file.Some? ==> path == ImagePath(u, file.value, imageType, unix) && Text.StartsWith(path, imageType + "/")
  {
    match file
    case None => ""
    case Some(filename) =>
      var path := ImagePath(u, filename, imageType, unix);
      var dir := imageType + "/";
      assert path[..|dir|] == (path[..|dir + u + "_" + imageType + "_"|])[..|dir|];
      path
  }

  /** `SaveProfileImage`: an avatar. */
  function SaveProfileImage(u: string, file: Option<string>, unix: int): string
  {
    SaveImage(u, file, "avatars", unix)
  }

  /** `SaveBannerImage`: a banner. */
  function SaveBannerImage(u: string, file: Option<string>, unix: int): string
  {
    SaveImage(u, file, "banners", unix)
  }

  /** Avatars and banners never share a path. */
  lemma AvatarsAndBannersApart(u: string, v: string, f: string, g: string, unix: int, unix2: int)
    ensures SaveProfileImage(u, Some(f), unix) != SaveBannerImage(v, Some(g), unix2)
  {
    var a := SaveProfileImage(u, Some(f), unix);
    var b := SaveBannerImage(v, Some(g), unix2);
    assert a[0] == 'a' && b[0] == 'b';
  }
}
