/** `instagramUrl`: the profile link for a handle. */
module Formatters {
  import opened Js
  import opened Text
  import Roasteries

  const ProfilePrefix: string := "https://instagram.com/"

  /** Null for a missing or empty handle; otherwise the prefix and the handle
      without one leading `@`. */
  function InstagramUrl(handle: Option<string>): (r: Option<string>)
    ensures r.None? <==> handle.None? || handle.value == ""
    ensures r.Some? ==> ProfilePrefix <= r.value
    ensures r.Some? ==> var rest := r.value[|ProfilePrefix|..];
                        && (handle.value == rest || handle.value == "@" + rest)
                        && (handle.value[0] == '@' <==> |rest| == |handle.value| - 1)
  {
    if handle.None? || handle.value == "" then None
    else Some(ProfilePrefix + StripAt(handle.value))
  }

  /** The handle `"@"` is truthy, so it yields the bare prefix. */
  lemma LoneAtGivesBarePrefix()
    ensures InstagramUrl(Some("@")) == Some(ProfilePrefix)
  {
    assert StripAt("@") == "";
    assert ProfilePrefix + "" == ProfilePrefix;
  }

  /** Cleaning a handle first does not change its link, for a non-blank handle
      with at most one leading `@` other than `"@"` itself. */
  lemma {:induction false} UrlOfCleanedHandle(h: string)
    requires !IsBlank(h) && h != "@"
    requires !(|h| >= 2 && h[0] == '@' && h[1] == '@')
    ensures InstagramUrl(Roasteries.CleanInstagramHandle(Some(h))) == InstagramUrl(Some(h))
  {
    var c := StripAt(h);
    assert Roasteries.CleanInstagramHandle(Some(h)) == Some(c);
    assert c != "";
    assert StripAt(c) == c;
  }

  /** For `"@"` the two differ: the cleaned handle is empty and has no link. */
  lemma CleanedLoneAtHasNoUrl()
    ensures Roasteries.CleanInstagramHandle(Some("@")) == Some("")
    ensures InstagramUrl(Roasteries.CleanInstagramHandle(Some("@"))) == None
    ensures InstagramUrl(Some("@")) != None
  {
    assert !IsBlank("@") by { assert "@"[0] == '@'; }
    assert StripAt("@") == "";
  }
}
