/** The command-line tool's two pure helpers: trimming trailing slashes off
    the repository URL, and telling the server generation from the status
    and body of its front page. */
module BenchTool {
  import opened Wrappers
  import opened Actions

  /** The characters Java's regular expressions treat as line terminators. */
  predicate IsLineTerminator(c: char) {
    c == '\n' || c == '\r' || c == '\U{0085}' || c == '\U{2028}' || c == '\U{2029}'
  }

  /** The position `$` matches besides the very end of the input (outside
      multiline mode, `$` also matches just before a final line terminator,
      and before a final "\r\n" pair as a whole). Without such a
      terminator this is the end of the input. */
  function Anchor(s: string): (a: nat)
    ensures a <= |s| && |s| - 2 <= a
    ensures a == |s| <==> s == [] || !IsLineTerminator(s[|s| - 1])
    ensures a == |s| - 2 <==> |s| >= 2 && s[|s| - 2] == '\r' && s[|s| - 1] == '\n'
    ensures forall i :: a <= i < |s| ==> IsLineTerminator(s[i])
  {
    if |s| >= 2 && s[|s| - 2] == '\r' && s[|s| - 1] == '\n' then |s| - 2
    else if |s| >= 1 && IsLineTerminator(s[|s| - 1]) then |s| - 1
    else |s|
  }

  /** The start of the run of slashes that ends at position `e`. */
  function SlashRunStart(s: string, e: nat): (j: nat)
    requires e <= |s|
    ensures j <= e
    ensures forall i :: j <= i < e ==> s[i] == '/'
    ensures j == 0 || s[j - 1] != '/'
    decreases e
  {
    if e == 0 || s[e - 1] != '/' then e else SlashRunStart(s, e - 1)
  }

  predicate AllSlashes(s: string) {
    forall i :: 0 <= i < |s| ==> s[i] == '/'
  }

  /** Replacing every match of "any number of slashes, then the end
      anchor" by nothing: the leftmost match is the run of slashes just
      before the anchor; the empty matches after it change nothing. */
  function Normalize(s: string): (r: string)
    ensures |r| <= |s|
    ensures r == [] || r[|r| - 1] != '/'
  {
    var a := Anchor(s);
    var j := SlashRunStart(s, a);
    s[..j] + s[a..]
  }

  /** The input is the normalised URL with a run of slashes put back in
      front of its line terminators (of which there are none in a normal
      URL), and that run is exactly what was removed. */
  lemma NormalizeSplits(s: string)
    ensures var r := Normalize(s);
      var a := Anchor(s);
      var j := a - (|s| - |r|);
      && 0 <= j <= a
      && s == r[..j] + s[j..a] + r[j..]
      && AllSlashes(s[j..a])
      && (j == 0 || s[j - 1] != '/')
  {
    var a := Anchor(s);
    var j := SlashRunStart(s, a);
    var r := Normalize(s);
    assert r == s[..j] + s[a..];
    assert |r| == j + (|s| - a);
    assert r[..j] == s[..j];
    assert r[j..] == s[a..];
    assert s == s[..j] + s[j..a] + s[a..];
  }

  /** For a URL without line terminators, the result is the input without
      its trailing slashes: the input is the result followed by slashes
      only. */
  lemma NormalizeStripsTrailingSlashes(s: string)
    requires forall i :: 0 <= i < |s| ==> !IsLineTerminator(s[i])
    ensures Normalize(s) <= s
    ensures AllSlashes(s[|Normalize(s)|..])
  {
    var j := SlashRunStart(s, |s|);
    assert Normalize(s) == s[..j];
  }

  /** For a URL without line terminators, normalising twice is normalising
      once. */
  lemma NormalizeIdempotent(s: string)
    requires forall i :: 0 <= i < |s| ==> !IsLineTerminator(s[i])
    ensures Normalize(Normalize(s)) == Normalize(s)
  {
    var r := Normalize(s);
    assert r == s[..SlashRunStart(s, |s|)];
    assert Anchor(r) == |r|;
    assert SlashRunStart(r, |r|) == |r|;
  }

  /** With a line terminator in the input the second pass can remove more:
      in "x/\r/" the first pass strips the final slash, which exposes a
      slash before the now-final terminator. */
  lemma NormalizeNotIdempotentAcrossTerminator()
    ensures Normalize("x/\r/") == "x/\r"
    ensures Normalize(Normalize("x/\r/")) == "x\r"
  {
    assert Normalize("x/\r/") == "x/\r";
    assert Anchor("x/\r") == 2;
    assert SlashRunStart("x/\r", 2) == 1;
  }

  /** `m` occurs in `s` starting at position `i`. */
  predicate OccursAt(s: string, m: string, i: int) {
    0 <= i && i + |m| <= |s| && s[i..i + |m|] == m
  }

  /** `String.indexOf(m, from)`: the first occurrence at or after `from`. */
  function IndexOf(s: string, m: string, from: nat): (r: Option<nat>)
    ensures r.Some? ==>
      && from <= r.value && OccursAt(s, m, r.value)
      && forall k :: from <= k < r.value ==> !OccursAt(s, m, k)
    ensures r.None? ==> forall k :: from <= k ==> !OccursAt(s, m, k)
    decreases |s| - from
  {
    if from + |m| > |s| then None
    else if s[from..from + |m|] == m then Some(from)
    else IndexOf(s, m, from + 1)
  }

  /** `String.contains`. */
  predicate Contains(s: string, m: string) {
    IndexOf(s, m, 0).Some?
  }

  lemma ContainsIffOccurs(s: string, m: string)
    ensures Contains(s, m) <==> exists i :: OccursAt(s, m, i)
  {
  }

  const Fcrepo3Markers: seq<string> := [
    "<meta http-equiv=\"refresh\" content=\"0;url=describe\">",
    "<title>Redirecting...</title>",
    "<a href=\"describe\">Redirecting...</a>"]

  const Fcrepo4Markers: seq<string> := [
    "<title>Fedora Commons Repository 4.0</title>",
    "You probably want to visit something a little more interesting, such as:",
    "the Fedora REST API endpoint"]

  predicate ContainsAll(s: string, ms: seq<string>) {
    forall i :: 0 <= i < |ms| ==> Contains(s, ms[i])
  }

  /** Why the version could not be told. */
  datatype ProbeError = NoServer(status: int) | UnknownVersion

  /** The classification part of `getFedoraVersion`. */
  function Classify(status: int, body: string): (r: Result<FedoraVersion, ProbeError>)
    ensures status != 200 ==> r == Failure(NoServer(status))
    ensures status == 200 ==>
      && (r == Success(Fcrepo3) <==> ContainsAll(body, Fcrepo3Markers))
      && (r == Success(Fcrepo4) <==>
            !ContainsAll(body, Fcrepo3Markers) && ContainsAll(body, Fcrepo4Markers))
      && (r == Failure(UnknownVersion) <==>
            !ContainsAll(body, Fcrepo3Markers) && !ContainsAll(body, Fcrepo4Markers))
  {
    if status != 200 then Failure(NoServer(status))
    else if Contains(body, Fcrepo3Markers[0]) && Contains(body, Fcrepo3Markers[1])
            && Contains(body, Fcrepo3Markers[2]) then Success(Fcrepo3)
    else if Contains(body, Fcrepo4Markers[0]) && Contains(body, Fcrepo4Markers[1])
            && Contains(body, Fcrepo4Markers[2]) then Success(Fcrepo4)
    else Failure(UnknownVersion)
  }

  /** A page made of the three Fedora 3 markers is a Fedora 3 server, even
      if it also carries the Fedora 4 markers. */
  lemma Fcrepo3Wins(extra: string)
    ensures Classify(200, Fcrepo3Markers[0] + Fcrepo3Markers[1] + Fcrepo3Markers[2] + extra)
         == Success(Fcrepo3)
  {
    var m0, m1, m2 := Fcrepo3Markers[0], Fcrepo3Markers[1], Fcrepo3Markers[2];
    var body := m0 + m1 + m2 + extra;
    assert OccursAt(body, m0, 0);
    assert OccursAt(body, m1, |m0|);
    assert OccursAt(body, m2, |m0| + |m1|);
  }
}
