/** InputFile: a PDF given to pdftk, the handle that names it on the
    command line, and the password that opens it. A null path or handle
    prints as the empty text, so both are plain strings here; a null
    password is different from an empty one and stays optional. */
module InputFiles {
  import opened Results
  import opened Text

  datatype InputFile = InputFile(filePath: string, handle: string, password: Option<string>)

  /** The constructor stores its arguments unchecked; a file built with no
      arguments has an empty path and handle and no password. */
  const Blank: InputFile := InputFile("", "", None)

  function SetFilePath(f: InputFile, filePath: string): (r: InputFile)
    ensures r.filePath == filePath
    ensures r.handle == f.handle && r.password == f.password
  {
    f.(filePath := filePath)
  }

  /** Only a handle of upper-case letters is accepted. */
  function SetHandle(f: InputFile, handle: string): (r: Result<InputFile>)
    ensures r.Ok? <==> IsHandle(handle)
    ensures r.Ok? ==> r.value.handle == handle && r.value.filePath == f.filePath && r.value.password == f.password
    ensures r.Err? ==> r.error == InvalidHandle(handle)
  {
    if IsHandle(handle) then Ok(f.(handle := handle)) else Err(InvalidHandle(handle))
  }

  function SetPassword(f: InputFile, password: Option<string>): (r: InputFile)
    ensures r.password == password
    ensures r.filePath == f.filePath && r.handle == f.handle
  {
    f.(password := password)
  }

  /** The tests' walk through the setters: a blank file takes a path, a
      handle of capitals and a password; a lower-case handle is refused. */
  lemma SettersExample()
    ensures SetHandle(Blank, "HANDLE").Ok?
    ensures var f := SetPassword(SetFilePath(SetHandle(Blank, "HANDLE").value, "/path/to/file"), Some("pa$$w0rd"));
      f == InputFile("/path/to/file", "HANDLE", Some("pa$$w0rd"))
    ensures SetPassword(Blank, None).password == None
    ensures SetHandle(Blank, "foo") == Err(InvalidHandle("foo"))
  {
    assert !IsUpper("foo"[0]);
  }
}
