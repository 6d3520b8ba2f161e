/** The profile modal: editing the full name and choosing a new photo, the client-side checks
    on both, what "save" sends to `PUT /api/auth/update-profile` and how it rewrites the
    user held in the page's context, and what "cancel" resets. */
module ProfileModal {
  import opened Common
  import Accounts

  /** The logged-in user as the page's context holds it. */
  datatype User = User(
    id: int,
    firstName: string,
    lastName: string,
    email: string,
    role: string,
    profilePicture: Option<string>,
    profilePictureUrl: Option<string>)

  /** A file picked in the photo input: its MIME type and its size in bytes. */
  datatype PhotoFile = PhotoFile(name: string, mimeType: string, size: int)

  const MinNameLength := 2
  const MaxNameLength := 50
  const MaxPhotoBytes := 5 * 1024 * 1024

  const NameTooShort: string := "Nama minimal 2 karakter"
  const NameTooLong: string := "Nama maksimal 50 karakter"
  const NameOutOfRange: string := "Nama harus 2-50 karakter"
  const PhotoTooLarge: string := "Ukuran file maksimal 5MB"
  const NoToken: string := "Token tidak ditemukan. Silakan login ulang."
  const SaveFailed: string := "Gagal menyimpan: "
  const Saved: string := "Profil berhasil diperbarui!"

  const AllowedPhotoTypes: seq<string> := ["image/jpeg", "image/png", "image/gif", "image/webp", "image/jpg"]

  /** The message for a refused MIME type, which quotes the type. */
  function BadPhotoType(mimeType: string): string {
    "Tipe file tidak didukung: " + mimeType + ". Gunakan JPEG, PNG, GIF, atau WebP"
  }

  /** The trimmed name has between 2 and 50 characters. */
  predicate NameInRange(name: string) {
    MinNameLength <= |Trim(name)| <= MaxNameLength
  }

  /** The error `handleNameChange` shows under the name input ("" for none). */
  function NameError(value: string): (e: string)
    ensures e == "" <==> NameInRange(value)
    ensures e == NameTooShort <==> |Trim(value)| < MinNameLength
    ensures e == NameTooLong <==> |Trim(value)| > MaxNameLength
  {
    assert NameTooShort[6] != NameTooLong[6];
    if |Trim(value)| < MinNameLength then NameTooShort
    else if |Trim(value)| > MaxNameLength then NameTooLong
    else ""
  }

  /** The checks both `handlePhotoChange` and `handleSave` apply to a photo, in order: the
      MIME type, then the size. */
  function PhotoRejection(file: PhotoFile): (error: Option<string>)
    ensures error.None? <==> file.mimeType in AllowedPhotoTypes && file.size <= MaxPhotoBytes
    ensures file.mimeType !in AllowedPhotoTypes ==> error == Some(BadPhotoType(file.mimeType))
  {
    if file.mimeType !in AllowedPhotoTypes then Some(BadPhotoType(file.mimeType))
    else if file.size > MaxPhotoBytes then Some(PhotoTooLarge)
    else None
  }

  /** The client accepts exactly the MIME types the server's upload check accepts. */
  lemma SameTypesAsServer(mimeType: string)
    ensures mimeType in AllowedPhotoTypes <==> mimeType in Accounts.AllowedTypes
  {
    assert AllowedPhotoTypes[0] == Accounts.AllowedTypes[0];
    assert AllowedPhotoTypes[1] == Accounts.AllowedTypes[2];
    assert AllowedPhotoTypes[2] == Accounts.AllowedTypes[3];
    assert AllowedPhotoTypes[3] == Accounts.AllowedTypes[4];
    assert AllowedPhotoTypes[4] == Accounts.AllowedTypes[1];
  }

  /** The user `handleSave` puts in the context after a successful save: the split name, the
      picture the server returned or else the old one, and a fresh picture URL only when the
      server returned a picture. */
  function Updated(u: User, editName: string, returned: Option<string>, nowMs: int): (r: User)
    ensures (r.firstName, r.lastName) == SplitName(editName)
    ensures r.id == u.id && r.email == u.email && r.role == u.role
    ensures r.profilePicture == if Truthy(returned) then returned else u.profilePicture
    ensures r.profilePictureUrl.Some? <==> Truthy(returned)
  {
    var parts := SplitName(editName);
    var url := if Truthy(returned)
      then Some(Accounts.UploadsUrl + returned.value + "?t=" + IntString(nowMs)) else None;
    u.(firstName := parts.0, lastName := parts.1,
       profilePicture := if Truthy(returned) then returned else u.profilePicture,
       profilePictureUrl := url)
  }

  /** When the server returns no picture, the user keeps the picture it had, yet loses its
      picture URL. */
  lemma KeptPictureLosesUrl(u: User, editName: string, returned: Option<string>, nowMs: int)
    requires Truthy(u.profilePicture) && !Truthy(returned)
    ensures Updated(u, editName, returned, nowMs).profilePicture == u.profilePicture
    ensures Truthy(Updated(u, editName, returned, nowMs).profilePicture)
    ensures Updated(u, editName, returned, nowMs).profilePictureUrl.None?
  {
  }

  /** The client splits the name it sent exactly as the server splits what it received: the
      context shows the names the server stored. */
  lemma SameSplitAsServer(editName: string)
    ensures SplitName(Trim(editName)) == SplitName(editName)
  {
    TrimIdempotent(editName);
  }

  /** A name that passes the length check never yields an empty first name. */
  lemma {:induction false} FirstNameNotEmpty(editName: string)
    requires NameInRange(editName)
    ensures SplitName(editName).0 != ""
  {
    TrimSpec(editName);
    var t := Trim(editName);
    assert t[0] != ' ' by {
      assert !IsSpace(t[0]);
    }
    assert Split(t, ' ')[0] == [t[0]] + Split(t[1..], ' ')[0];
  }

  /** What the server answered to the save: whether the status was 2xx, the status, the
      `message` field and the `user.profile_picture` field. */
  datatype SaveAnswer = SaveAnswer(ok: bool, status: int, message: Option<string>, picture: Option<string>)

  /** The message of the error thrown for a non-2xx answer. */
  function AnswerError(a: SaveAnswer): string {
    if Truthy(a.message) then a.message.value else "Server error: " + IntString(a.status)
  }

  /** The multipart body of the save: the trimmed name, and the photo when one was chosen. */
  datatype SaveRequest = SaveRequest(name: string, photo: Option<PhotoFile>)

  class ProfileModalState {
    var user: User
    var editName: string
    var photoFile: Option<PhotoFile>
    /** The object URL previewing `photoFile`. */
    var photoPreview: Option<string>
    /** The file the photo input holds. */
    var photoInput: Option<PhotoFile>
    var nameError: string
    var photoError: string
    var isSaving: bool
    var alerts: seq<string>
    /** Whether `onClose` has been called. */
    var closed: bool

    /** A chosen photo always passed the checks, and has a preview exactly when it is there. */
    predicate Valid()
      reads this
    {
      && (photoFile.Some? ==> PhotoRejection(photoFile.value).None?)
      && (photoPreview.Some? <==> photoFile.Some?)
    }

    constructor(u: User)
      ensures Valid()
      ensures user == u && editName == "" && photoFile.None? && photoPreview.None? && photoInput.None?
      ensures nameError == "" && photoError == "" && !isSaving && alerts == [] && !closed
    {
      user := u;
      editName := "";
      photoFile := None;
      photoPreview := None;
      photoInput := None;
      nameError := "";
      photoError := "";
      isSaving := false;
      alerts := [];
      closed := false;
    }

    /** The effect run when the modal is shown: the name input gets the user's full name, and
        the photo and both errors are reset. */
    method Open()
      modifies this
      ensures Valid()
      ensures editName == Trim(user.firstName + " " + user.lastName)
      ensures photoPreview.None? && photoFile.None? && nameError == "" && photoError == ""
      ensures user == old(user) && photoInput == old(photoInput) && isSaving == old(isSaving)
      ensures alerts == old(alerts) && closed == old(closed)
    {
      editName := Trim(user.firstName + " " + user.lastName);
      photoPreview := None;
      photoFile := None;
      nameError := "";
      photoError := "";
    }

    /** `handleNameChange`: the input takes the value and its error follows the length rule. */
    method HandleNameChange(value: string)
      requires Valid()
      modifies this
      ensures Valid()
      ensures editName == value && nameError == NameError(value)
      ensures user == old(user) && photoFile == old(photoFile) && photoPreview == old(photoPreview)
      ensures photoInput == old(photoInput) && photoError == old(photoError)
      ensures isSaving == old(isSaving) && alerts == old(alerts) && closed == old(closed)
    {
      editName := value;
      if |Trim(value)| < MinNameLength {
        nameError := NameTooShort;
      } else if |Trim(value)| > MaxNameLength {
        nameError := NameTooLong;
      } else {
        nameError := "";
      }
    }

    /** `handlePhotoChange` for the input's first file (`None` when the choice was cancelled)
        and the object URL the browser makes for it. A refused file leaves the chosen photo
        as it was, shows the reason and clears the input. */
    method HandlePhotoChange(file: Option<PhotoFile>, previewUrl: string)
      requires Valid()
      modifies this
      ensures Valid()
      ensures file.None? ==> photoFile == old(photoFile) && photoPreview == old(photoPreview)
                             && photoError == "" && photoInput == file
      ensures file.Some? && PhotoRejection(file.value).Some? ==>
        && photoFile == old(photoFile) && photoPreview == old(photoPreview)
        && photoError == PhotoRejection(file.value).value && photoInput.None?
      ensures file.Some? && PhotoRejection(file.value).None? ==>
        photoFile == file && photoPreview == Some(previewUrl) && photoError == "" && photoInput == file
      ensures user == old(user) && editName == old(editName) && nameError == old(nameError)
      ensures isSaving == old(isSaving) && alerts == old(alerts) && closed == old(closed)
    {
      photoInput := file;
      photoError := "";
      if file.Some? {
        var f := file.value;
        if f.mimeType !in AllowedPhotoTypes {
          photoError := BadPhotoType(f.mimeType);
          photoInput := None;
          return;
        }
        if f.size > MaxPhotoBytes {
          photoError := PhotoTooLarge;
          photoInput := None;
          return;
        }
        photoFile := file;
        photoPreview := Some(previewUrl);
      }
    }

    /** The `catch` of `handleSave`: both errors cleared and the failure alerted. */
    method Fail(message: string)
      modifies this
      ensures nameError == "" && photoError == "" && alerts == old(alerts) + [SaveFailed + message]
      ensures user == old(user) && editName == old(editName) && photoFile == old(photoFile)
      ensures photoPreview == old(photoPreview) && photoInput == old(photoInput)
      ensures isSaving == old(isSaving) && closed == old(closed)
    {
      photoError := "";
      nameError := "";
      alerts := alerts + [SaveFailed + message];
    }

    /** `handleSave` with the stored token, the server's answer to the request (used only
        when a request is sent) and the clock. A name of the wrong length sends nothing and
        shows the range error; a missing token sends nothing and alerts. Otherwise the trimmed
        name and the chosen photo are sent. A refused answer is alerted and changes nothing
        else; an accepted one rewrites the user, resets the photo and errors, and closes. */
    method HandleSave(token: Option<string>, answer: SaveAnswer, nowMs: int) returns (sent: Option<SaveRequest>)
      requires Valid()
      modifies this
      ensures Valid()
      ensures !NameInRange(old(editName)) ==>
        && sent.None? && nameError == NameOutOfRange && photoError == old(photoError)
        && user == old(user) && photoFile == old(photoFile) && alerts == old(alerts)
        && isSaving == old(isSaving) && closed == old(closed)
      ensures NameInRange(old(editName)) && !Truthy(token) ==>
        && sent.None? && alerts == old(alerts) + [SaveFailed + NoToken]
        && nameError == "" && photoError == "" && user == old(user) && photoFile == old(photoFile)
        && closed == old(closed)
      ensures NameInRange(old(editName)) && Truthy(token) ==>
        sent == Some(SaveRequest(Trim(old(editName)), old(photoFile)))
      ensures sent.Some? && !answer.ok ==>
        && alerts == old(alerts) + [SaveFailed + AnswerError(answer)]
        && nameError == "" && photoError == "" && user == old(user) && photoFile == old(photoFile)
        && closed == old(closed)
      ensures sent.Some? && answer.ok ==>
        && user == Updated(old(user), old(editName), answer.picture, nowMs)
        && photoFile.None? && photoPreview.None? && nameError == "" && photoError == ""
        && alerts == old(alerts) + [Saved] && closed
      ensures !(sent.Some? && answer.ok) ==> photoPreview == old(photoPreview)
      ensures NameInRange(old(editName)) ==> !isSaving
      ensures editName == old(editName) && photoInput == old(photoInput)
    {
      if !NameInRange(editName) {
        nameError := NameOutOfRange;
        return None;
      }
      isSaving := true;
      if !Truthy(token) {
        Fail(NoToken);
        isSaving := false;
        return None;
      }
      if photoFile.Some? {
        // The photo was checked when it was chosen, so neither check throws here.
        assert photoFile.value.mimeType in AllowedPhotoTypes && photoFile.value.size <= MaxPhotoBytes;
      }
      sent := Some(SaveRequest(Trim(editName), photoFile));
      if !answer.ok {
        Fail(AnswerError(answer));
      } else {
        Succeed(answer.picture, nowMs);
      }
      isSaving := false;
    }

    /** The successful end of `handleSave`: the context gets the updated user, the photo and
        both errors are reset, the success is alerted and the modal closes. */
    method Succeed(returned: Option<string>, nowMs: int)
      modifies this
      ensures Valid()
      ensures user == Updated(old(user), old(editName), returned, nowMs)
      ensures photoFile.None? && photoPreview.None? && nameError == "" && photoError == ""
      ensures alerts == old(alerts) + [Saved] && closed
      ensures editName == old(editName) && photoInput == old(photoInput) && isSaving == old(isSaving)
    {
      user := Updated(user, editName, returned, nowMs);
      photoFile := None;
      photoPreview := None;
      nameError := "";
      photoError := "";
      alerts := alerts + [Saved];
      closed := true;
    }

    /** `handleCancel`: the name, the photo, its preview and both errors are reset, and the
        modal closes. */
    method HandleCancel()
      modifies this
      ensures Valid()
      ensures editName == "" && photoFile.None? && photoPreview.None? && nameError == "" && photoError == ""
      ensures closed
      ensures user == old(user) && photoInput == old(photoInput) && isSaving == old(isSaving)
      ensures alerts == old(alerts)
    {
      editName := "";
      photoFile := None;
      photoPreview := None;
      nameError := "";
      photoError := "";
      closed := true;
    }
  }
}
