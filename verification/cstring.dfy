/** `std::ffi::CString`: a string without interior NUL, stored with one
    terminating NUL. The two constructors the crate uses are modelled. */
module CStrings {
  import opened Base
  import opened Text
  import Foreign

  type NulFree = s: string | '\0' !in s

  datatype CString = CString(content: NulFree) {
    /** The stored buffer, `as_bytes_with_nul`. */
    function WithNul(): string {
      content + ['\0']
    }
  }

  /** Rust `CString::new`: fails with the position of the first NUL. */
  function CStringNew(s: string): (r: Result<CString, Foreign.NulError>)
    ensures r.Ok? <==> '\0' !in s
    ensures r.Ok? ==> r.value.content == s
    ensures r.Err? ==> r.error.bytes == s && r.error.position < |s|
                       && s[r.error.position] == '\0'
    ensures r.Err? ==> forall j :: 0 <= j < r.error.position ==> s[j] != '\0'
  {
    match IndexOf(s, '\0')
    case None => Ok(CString(s))
    case Some(i) => Err(Foreign.NulError(i, s))
  }

  /** Rust `CString::from_vec_with_nul`: accepts a buffer whose only NUL
      is its last element. */
  function FromVecWithNul(v: string): (r: Result<CString, Foreign.FromVecWithNulError>)
    ensures r.Ok? <==> |v| > 0 && v[|v| - 1] == '\0' && '\0' !in v[..|v| - 1]
    ensures r.Ok? ==> r.value.WithNul() == v
    ensures r.Err? ==> r.error.bytes == v
    ensures r.Err? && r.error.kind.InteriorNul? ==>
              r.error.kind.position < |v| - 1 && v[r.error.kind.position] == '\0'
    ensures r.Err? && r.error.kind.NotNulTerminated? ==> '\0' !in v
  {
    match IndexOf(v, '\0')
    case Some(i) =>
      if i + 1 == |v| then
        assert v == v[..i] + ['\0'];
        Ok(CString(v[..i]))
      else
        Err(Foreign.FromVecWithNulError(Foreign.InteriorNul(i), v))
    case None => Err(Foreign.FromVecWithNulError(Foreign.NotNulTerminated, v))
  }

  /** The stored buffer of every C string is accepted back unchanged. */
  lemma FromVecWithNulRoundTrip(c: CString)
    ensures FromVecWithNul(c.WithNul()) == Ok(c)
  {
    var v := c.WithNul();
    assert v[..|v| - 1] == c.content;
  }
}
