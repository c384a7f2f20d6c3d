/** The image upload endpoint (src/app/api/posts/upload/route.ts): four guards
    in order (signed-in user, a file, an image type, at most 5 MiB), then a
    file name and a URL derived from the user, the clock and the file name. */
module UploadRoute {
  import opened Common

  /** The user `getCurrentUser()` resolves to. */
  datatype CurrentUser = CurrentUser(id: string)

  /** The form's "file" entry: `name`, `type` and `size` in bytes. */
  datatype UploadFile = UploadFile(name: string, mimeType: string, size: nat)

  datatype Uploaded = Uploaded(url: string, fileName: string, size: nat)

  const AllowedTypes: seq<string> := ["image/jpeg", "image/png", "image/webp", "image/gif"]

  /** 5 MiB. */
  const MaxSize: nat := 5 * 1024 * 1024

  /** POST /api/posts/upload; `now` is `Date.now()`. */
  function Upload(user: Option<CurrentUser>, file: Option<UploadFile>, now: nat): (r: Reply<Uploaded>)
    ensures user.None? ==> r == Fail(401, "Unauthorized")
    ensures user.Some? && file.None? ==> r == Fail(400, "No file provided")
    ensures user.Some? && file.Some? && file.value.mimeType !in AllowedTypes ==>
      r == Fail(400, "Invalid file type. Only images are allowed.")
    ensures user.Some? && file.Some? && file.value.mimeType in AllowedTypes && file.value.size > MaxSize ==>
      r == Fail(400, "File too large. Maximum 5MB allowed.")
    ensures r.Ok? <==> user.Some? && file.Some? && file.value.mimeType in AllowedTypes && file.value.size <= MaxSize
    ensures r.Ok? ==> r.status == 200 && r.data.size == file.value.size
    ensures r.Ok? ==> r.data.fileName == user.value.id + "-" + Decimal(now) + "-" + file.value.name
    ensures r.Ok? ==> r.data.url == "/uploads/" + r.data.fileName
  {
    if user.None? then Fail(401, "Unauthorized")
    else if file.None? then Fail(400, "No file provided")
    else if file.value.mimeType !in AllowedTypes then Fail(400, "Invalid file type. Only images are allowed.")
    else if file.value.size > MaxSize then Fail(400, "File too large. Maximum 5MB allowed.")
    else
      var fileName := user.value.id + "-" + Decimal(now) + "-" + file.value.name;
      Ok(200, Uploaded("/uploads/" + fileName, fileName, file.value.size))
  }

  /** The size limit is inclusive: 5242880 bytes pass, one more byte does not. */
  lemma SizeLimitInclusive(user: CurrentUser, name: string, mimeType: string, now: nat)
    requires mimeType in AllowedTypes
    ensures Upload(Some(user), Some(UploadFile(name, mimeType, 5242880)), now).Ok?
    ensures Upload(Some(user), Some(UploadFile(name, mimeType, 5242881)), now).Fail?
  {
  }

  /** The URL names the uploader first and the original file name last. */
  lemma UrlShape(user: CurrentUser, file: UploadFile, now: nat)
    requires file.mimeType in AllowedTypes && file.size <= MaxSize
    ensures var url := Upload(Some(user), Some(file), now).data.url;
      var head := "/uploads/" + user.id + "-";
      && |url| > |head| + |file.name|
      && url[..|head|] == head
      && url[|url| - |file.name| - 1..] == "-" + file.name
  {
    var url := Upload(Some(user), Some(file), now).data.url;
    var d := Decimal(now);
    assert url == "/uploads/" + user.id + "-" + d + "-" + file.name;
  }
}
