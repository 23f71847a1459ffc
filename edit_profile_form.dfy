/** The profile form's submit: validation, trimming and the avatar fallback. */
module EditProfileForm {
  import opened Text
  import opened Model

  /** The avatar shown when the form's avatar address trims to empty. The literal is written as
      a short scheme prefix and the rest, because the verifier cannot index into a string literal
      this long; the prefix lets `FallbackTrimmed` read off its first character. */
  const FallbackAvatar: string :=
    "https://" + "cdn.vectorstock.com/i/500p/05/27/user-icon-silhouette-head-and-body-vector-59820527.jpg"

  /** `handleSubmit`: the updated profile, or `None` (an error notice) when the name or the role
      trims to empty. */
  function SubmitProfile(current: User, name: string, role: string, avatarUrl: string): (r: Option<User>)
    ensures r.Some? <==> Trim(name) != "" && Trim(role) != ""
    ensures r.Some? ==> r.value.name == Trim(name) && r.value.role == Trim(role)
    ensures r.Some? ==> r.value.others == current.others
    ensures r.Some? && AllWhite(avatarUrl) ==> r.value.avatarUrl == FallbackAvatar
    ensures r.Some? && !AllWhite(avatarUrl) ==> r.value.avatarUrl == Trim(avatarUrl)
  {
    if Trim(name) != "" && Trim(role) != "" then
      var url := Trim(avatarUrl);
      Some(current.(name := Trim(name), role := Trim(role), avatarUrl := if url != "" then url else FallbackAvatar))
    else None
  }

  /** The fallback address has no white space around it. */
  lemma FallbackTrimmed()
    ensures Trim(FallbackAvatar) == FallbackAvatar && !AllWhite(FallbackAvatar)
  {
    assert FallbackAvatar[0] == 'h' && FallbackAvatar[|FallbackAvatar| - 1] == 'g';
    assert AllWhite("");
    TrimOfPadded("", FallbackAvatar, "");
    assert "" + FallbackAvatar + "" == FallbackAvatar;
  }

  /** Saving a profile again with the fields it was saved with changes nothing. */
  lemma SubmitProfileIdempotent(current: User, name: string, role: string, avatarUrl: string)
    requires !AllWhite(name) && !AllWhite(role)
    ensures var u := SubmitProfile(current, name, role, avatarUrl).value;
      SubmitProfile(u, u.name, u.role, u.avatarUrl) == Some(u)
  {
    var u := SubmitProfile(current, name, role, avatarUrl).value;
    TrimIdempotent(name);
    TrimIdempotent(role);
    TrimIdempotent(avatarUrl);
    FallbackTrimmed();
    assert !AllWhite(u.avatarUrl) by {
      if Trim(avatarUrl) != "" { assert u.avatarUrl == Trim(avatarUrl); } else {
        assert u.avatarUrl == FallbackAvatar;
        assert !IsWhite(FallbackAvatar[0]);
      }
    }
  }
}
