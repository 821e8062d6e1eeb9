// Path and case helpers of the engine's utility library (Core/Utility.cpp).
// Both the narrow and the wide overloads behave identically on their
// characters, so one definition over seq<char> stands for each pair.
module PathUtil {
  import opened Wrappers

  /** The position of the last occurrence of c in s (std::string::rfind), None for npos. */
  function RFind(s: string, c: char): (r: Option<nat>)
    ensures r.None? <==> c !in s
    ensures r.Some? ==> r.value < |s| && s[r.value] == c && c !in s[r.value + 1..]
  {
    if |s| == 0 then None
    else if s[|s| - 1] == c then Some(|s| - 1)
    else
      var r := RFind(s[..|s| - 1], c);
      assert s == s[..|s| - 1] + [s[|s| - 1]];
      r
  }

  /** The last occurrence is unique: a c with no c after it is the one RFind finds. */
  lemma RFindIsLast(s: string, c: char, k: nat)
    requires k < |s| && s[k] == c && c !in s[k + 1..]
    ensures RFind(s, c) == Some(k)
  {
  }

  /** std::tolower in the classic locale: only 'A'..'Z' change. */
  function LowerChar(c: char): (r: char)
    ensures 'A' <= c <= 'Z' ==> 'a' <= r <= 'z' && r as int - c as int == 32
    ensures !('A' <= c <= 'Z') ==> r == c
  {
    if 'A' <= c <= 'Z' then (c as int + 32) as char else c
  }

  /** ToLower lowers a copy of the string one character at a time. */
  method ToLower(str: string) returns (lower: string)
    ensures |lower| == |str|
    ensures forall i :: 0 <= i < |str| ==> lower[i] == LowerChar(str[i])
  {
    lower := str;
    var i := 0;
    while i < |lower|
      invariant |lower| == |str| && 0 <= i <= |str|
      invariant forall j :: 0 <= j < i ==> lower[j] == LowerChar(str[j])
      invariant forall j :: i <= j < |str| ==> lower[j] == str[j]
    {
      lower := lower[i := LowerChar(lower[i])];
      i := i + 1;
    }
  }

  /** Lowering a character that is already lowered changes nothing, so ToLower is idempotent. */
  lemma LowerCharIdempotent(c: char)
    ensures LowerChar(LowerChar(c)) == LowerChar(c)
    ensures 'A' <= LowerChar(c) <= 'Z' ==> false
  {
  }

  /**
   * The position just past the separator GetBasePath and RemoveBasePath split at:
   * the last '/' if there is any, otherwise the last '\\', otherwise none.
   */
  function SplitPoint(p: string): (r: Option<nat>)
    ensures r.None? <==> '/' !in p && '\\' !in p
    ensures r.Some? ==> 0 < r.value <= |p|
    ensures '/' in p ==> r.Some? && p[r.value - 1] == '/' && '/' !in p[r.value..]
    ensures '/' !in p && '\\' in p ==> r.Some? && p[r.value - 1] == '\\' && '\\' !in p[r.value..]
  {
    match RFind(p, '/')
    case Some(k) => Some(k + 1)
    case None =>
      match RFind(p, '\\')
      case Some(k) => Some(k + 1)
      case None => None
  }

  /** GetBasePath: everything up to and including the chosen separator, or "" without one. */
  function GetBasePath(p: string): (r: string)
    ensures r == [] || r[|r| - 1] == '/' || r[|r| - 1] == '\\'
    ensures '/' in p ==> |r| > 0 && r[|r| - 1] == '/'
    ensures '/' !in p && '\\' !in p ==> r == []
    ensures r <= p
  {
    match SplitPoint(p)
    case Some(k) => p[..k]
    case None => []
  }

  /** RemoveBasePath: everything after the chosen separator, or the whole path without one. */
  function RemoveBasePath(p: string): (r: string)
    ensures '/' !in r
    ensures '/' !in p ==> '\\' !in r
    ensures |r| <= |p| && r == p[|p| - |r|..]
  {
    match SplitPoint(p)
    case Some(k) => p[k..]
    case None => p
  }

  /** The base path and the file name split the path exactly. */
  lemma BasePathSplit(p: string)
    ensures GetBasePath(p) + RemoveBasePath(p) == p
  {
    match SplitPoint(p)
    case Some(k) => assert p == p[..k] + p[k..];
    case None =>
  }

  /**
   * A '/' anywhere wins over backslashes, even over a backslash after it: the
   * split happens at the last '/', and backslashes after it stay in the file name.
   */
  lemma SlashTakesPriority(a: string, b: string)
    requires '/' !in b
    ensures GetBasePath(a + "/" + b) == a + "/"
    ensures RemoveBasePath(a + "/" + b) == b
  {
    var p := a + "/" + b;
    assert p[|a| + 1..] == b;
    RFindIsLast(p, '/', |a|);
    assert p[..|a| + 1] == a + "/";
  }

  /** GetFileExtension: the extension of the file name RemoveBasePath leaves. */
  function GetFileExtension(p: string): (r: string)
    ensures '.' !in r && '/' !in r
    ensures r == NameExtension(RemoveBasePath(p))
  {
    NameExtension(RemoveBasePath(p))
  }

  /** The text after the last '.' of a file name, "" when it has none. */
  function NameExtension(name: string): (r: string)
    ensures '.' !in r
    ensures '/' !in name ==> '/' !in r
    ensures '.' !in name ==> r == []
    ensures '.' in name ==> |r| < |name| && name[|name| - |r| - 1] == '.' && r == name[|name| - |r|..]
  {
    match RFind(name, '.')
    case None => []
    case Some(k) =>
      ExtensionOfName(name, k);
      name[k + 1..]
  }

  /** The text after the last '.' of a name: no '.', no character the name lacks, and it ends the name. */
  lemma ExtensionOfName(name: string, k: nat)
    requires k < |name| && name[k] == '.' && '.' !in name[k + 1..]
    ensures var r := name[k + 1..];
      '.' !in r && ('/' !in name ==> '/' !in r) &&
      |r| < |name| && name[|name| - |r| - 1] == '.' && r == name[|name| - |r|..]
  {
    assert forall ch :: ch in name[k + 1..] ==> ch in name;
  }

  /** RemoveExtension: the path cut before its last '.', or unchanged without one. */
  function RemoveExtension(p: string): (r: string)
    ensures r <= p
    ensures '.' !in p ==> r == p
    ensures '.' in p ==> |r| < |p| && p[|r|] == '.' && '.' !in p[|r| + 1..]
  {
    match RFind(p, '.')
    case None => p
    case Some(k) => p[..k]
  }

  /**
   * When the file name has an extension, the path is the path without its
   * extension, a '.', and the extension.
   */
  lemma ExtensionRoundTrip(p: string)
    requires '.' in RemoveBasePath(p)
    ensures RemoveExtension(p) + "." + GetFileExtension(p) == p
  {
    var d := ExtensionDot(p);
    RFindIsLast(p, '.', d);
    Reassemble(p, d, GetFileExtension(p));
  }

  /** The extension's '.' is also the last '.' of the whole path. */
  lemma ExtensionDot(p: string) returns (d: nat)
    requires '.' in RemoveBasePath(p)
    ensures d == |p| - |GetFileExtension(p)| - 1
    ensures d < |p| && p[d] == '.' && p[d + 1..] == GetFileExtension(p) && '.' !in p[d + 1..]
  {
    var name := RemoveBasePath(p);
    var ext := GetFileExtension(p);
    d := |p| - |ext| - 1;
    SuffixIndex(p, name, |name| - |ext| - 1);
    SuffixTail(p, name, |name| - |ext|);
    assert p[d + 1..] == ext;
  }

  lemma SuffixIndex(p: string, name: string, i: nat)
    requires |name| <= |p| && name == p[|p| - |name|..] && i < |name|
    ensures p[|p| - |name| + i] == name[i]
  {
  }

  lemma SuffixTail(p: string, name: string, i: nat)
    requires |name| <= |p| && name == p[|p| - |name|..] && i <= |name|
    ensures p[|p| - |name| + i..] == name[i..]
  {
  }

  lemma Reassemble(s: string, d: nat, e: string)
    requires d < |s| && s[d] == '.' && s[d + 1..] == e
    ensures s[..d] + "." + e == s
  {
    assert s == s[..d] + [s[d]] + s[d + 1..];
  }
}
