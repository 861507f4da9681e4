/**
 * The profile page: renaming the user (at least two characters after
 * trimming, initials derived from the new name), the avatar fallback
 * initials and the earned-badge counter.
 */
module ProfilePage {
  import opened Wrappers
  import opened JsText
  import opened MeRoute

  const NameTooShortAlert: string := "닉네임은 2글자 이상 입력해주세요."
  const SaveFailedAlert: string := "닉네임 변경에 실패했습니다."
  const NetworkAlert: string := "네트워크 오류가 발생했습니다."

  /** The part of `/api/me`'s answer the page edits and shows. */
  datatype Profile = Profile(name: string, initials: Option<string>, image: Option<string>)

  /** `handleSaveNickname` proceeds only with at least two characters left after trimming. */
  predicate NameAccepted(editName: string) { |Trim(editName)| >= 2 }

  /** `newName.slice(0, 2).toUpperCase()`. */
  function NewInitials(newName: string): (r: string)
    ensures |r| == if |newName| < 2 then |newName| else 2
    ensures forall i :: 0 <= i < |r| ==> r[i] == UpperChar(newName[i])
  {
    ToUpperCase(Prefix(newName, 2))
  }

  /** The Save button: disabled while saving or while the name would be refused. */
  predicate SaveDisabled(saving: bool, editName: string) {
    saving || Trim(editName) == "" || |Trim(editName)| < 2
  }

  /** When no save is running, the button is disabled exactly for the names a save refuses. */
  lemma SaveDisabledIff(editName: string)
    ensures SaveDisabled(false, editName) <==> !NameAccepted(editName)
  {
  }

  /** The avatar text: the stored initials, else the name's first two characters upper-cased, else "?". */
  function DisplayInitials(profile: Option<Profile>): (r: string)
    ensures r != ""
    ensures profile.Some? && profile.value.initials.Some? && profile.value.initials.value != "" ==>
      r == profile.value.initials.value
    ensures profile.Some? && profile.value.name != "" && !(profile.value.initials.Some? && profile.value.initials.value != "") ==>
      r == NewInitials(profile.value.name)
    ensures (profile.None? || profile.value.name == "") && !(profile.Some? && profile.value.initials.Some? && profile.value.initials.value != "") ==>
      r == "?"
  {
    if profile.Some? && profile.value.initials.Some? && profile.value.initials.value != "" then profile.value.initials.value
    else if profile.Some? && NewInitials(profile.value.name) != "" then NewInitials(profile.value.name)
    else "?"
  }

  /** `setProfile(prev => prev ? { ...prev, name, initials } : null)`. */
  function Renamed(profile: Option<Profile>, newName: string): Option<Profile> {
    if profile.Some? then Some(profile.value.(name := newName, initials := Some(NewInitials(newName)))) else None
  }

  /** After a rename the avatar shows the initials of the new name. */
  lemma RenamedInitials(p: Profile, editName: string)
    requires NameAccepted(editName)
    ensures DisplayInitials(Renamed(Some(p), Trim(editName))) == NewInitials(Trim(editName))
    ensures |DisplayInitials(Renamed(Some(p), Trim(editName)))| == 2
  {
  }

  /** The request body of a rename. */
  function RenameBody(newName: string): map<string, Json> {
    map["name" := JStr(newName), "initials" := JStr(NewInitials(newName))]
  }

  /** PATCH copies both fields of an accepted rename, both as text, and nothing else. */
  lemma RenameBodyCopied(editName: string)
    requires NameAccepted(editName)
    ensures var body := RenameBody(Trim(editName));
      body.Keys == {"name", "initials"} && body.Keys <= PatchFields && forall k :: k in body ==> Truthy(body[k])
    ensures var body := RenameBody(Trim(editName));
      PatchData(body) == body && TypedData(body)
  {
    var body := RenameBody(Trim(editName));
    assert PatchData(body).Keys == body.Keys;
  }

  /** The badge list entries: `earned` is whether the user holds it. */
  datatype BadgeItem = BadgeItem(name: string, earned: bool)

  /** `badges.filter((b) => b.earned).length`. */
  function EarnedCount(badges: seq<BadgeItem>): (n: nat)
    ensures n <= |badges|
    ensures n == |badges| <==> forall i :: 0 <= i < |badges| ==> badges[i].earned
    ensures n == 0 <==> forall i :: 0 <= i < |badges| ==> !badges[i].earned
  {
    if badges == [] then 0
    else
      var rest := EarnedCount(badges[1..]);
      assert forall i :: 1 <= i < |badges| ==> badges[i] == badges[1..][i - 1];
      (if badges[0].earned then 1 else 0) + rest
  }

  /** How a rename request ended. */
  datatype SaveOutcome = Saved | Refused | NetworkError

  /** The page's editing state. */
  class ProfileView {
    var profile: Option<Profile>
    var isEditing: bool
    var editName: string
    var saving: bool

    constructor(profile: Option<Profile>)
      ensures this.profile == profile && !isEditing && editName == "" && !saving
    {
      this.profile := profile;
      isEditing := false;
      editName := "";
      saving := false;
    }

    /**
     * `handleSaveNickname`; `outcome` is how the request ended. A refused
     * name raises an alert and sends nothing; otherwise the trimmed name and
     * its initials are sent, and only a saved request renames the profile
     * and closes the editor.
     */
    method HandleSaveNickname(outcome: SaveOutcome) returns (request: Option<map<string, Json>>, alert: Option<string>)
      modifies this
      ensures editName == old(editName)
      ensures !NameAccepted(editName) ==>
        request.None? && alert == Some(NameTooShortAlert) &&
        profile == old(profile) && isEditing == old(isEditing) && saving == old(saving)
      ensures NameAccepted(editName) ==>
        request == Some(RenameBody(Trim(editName))) && !saving &&
        (outcome == Saved ==> alert.None? && profile == Renamed(old(profile), Trim(editName)) && !isEditing) &&
        (outcome == Refused ==> alert == Some(SaveFailedAlert) && profile == old(profile) && isEditing == old(isEditing)) &&
        (outcome == NetworkError ==> alert == Some(NetworkAlert) && profile == old(profile) && isEditing == old(isEditing))
    {
      var newName := Trim(editName);
      if newName == "" || |newName| < 2 {
        return None, Some(NameTooShortAlert);
      }
      saving := true;
      request := Some(RenameBody(newName));
      alert := None;
      match outcome {
        case Saved =>
          profile := Renamed(profile, newName);
          isEditing := false;
        case Refused =>
          alert := Some(SaveFailedAlert);
        case NetworkError =>
          alert := Some(NetworkAlert);
      }
      saving := false;
    }
  }
}
