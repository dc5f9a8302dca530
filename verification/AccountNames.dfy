/** Which user names are acceptable: account_check_name of src/bnetd/account.cpp. */
module AccountNames {
  import opened DecimalText

  const MIN_USERNAME_LEN := 2
  /** Includes the terminator. */
  const MAX_USERNAME_LEN := 16

  /** isalnum in the C locale. */
  predicate IsAlnum(c: char) {
    'a' <= c <= 'z' || 'A' <= c <= 'Z' || IsDigit(c)
  }

  /** The slashes are refused even when the configuration lists them. */
  predicate AcceptableChar(c: char, symbols: string) {
    c != '/' && c != '\\' && (IsAlnum(c) || c in symbols)
  }

  predicate Acceptable(name: string, symbols: string) {
    MIN_USERNAME_LEN <= |name| < MAX_USERNAME_LEN && forall i :: 0 <= i < |name| ==> AcceptableChar(name[i], symbols)
  }

  method CheckName(name: string, symbols: string) returns (code: int)
    ensures code == 0 || code == -1
    ensures code == 0 <==> Acceptable(name, symbols)
    ensures code == 0 <==> 2 <= |name| <= 15 && forall i :: 0 <= i < |name| ==>
              name[i] != '/' && name[i] != '\\' &&
              (name[i] in symbols || 'a' <= name[i] <= 'z' || 'A' <= name[i] <= 'Z' || '0' <= name[i] <= '9')
  {
    var i := 0;
    while i < |name|
      invariant 0 <= i <= |name| && forall j :: 0 <= j < i ==> AcceptableChar(name[j], symbols)
    {
      var ch := name[i];
      if ch == '/' || ch == '\\' {
        return -1;
      }
      if !IsAlnum(ch) && ch !in symbols {
        return -1;
      }
      i := i + 1;
    }
    code := if i < MIN_USERNAME_LEN || i >= MAX_USERNAME_LEN then -1 else 0;
  }
}
