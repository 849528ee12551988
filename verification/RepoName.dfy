/** repo.Normalize: one canonical "host/owner/name" for the ways a repository can be written. */
module RepoName {
  import opened Wrappers
  import opened Text

  predicate IsWordChar(c: char) { 'a' <= c <= 'z' || '0' <= c <= '9' || c == '.' || c == '_' || c == '-' }

  /** One or more segments joined by single slashes, as in the tail of the pattern. */
  predicate IsPath(s: string) {
    && s != "" && s[0] != '/' && s[|s| - 1] != '/'
    && (forall i :: 0 <= i < |s| ==> IsWordChar(s[i]) || s[i] == '/')
    && forall i :: 0 <= i < |s| - 1 ==> !(s[i] == '/' && s[i + 1] == '/')
  }

  predicate IsHost(s: string) {
    && s != "" && ('a' <= s[0] <= 'z' || '0' <= s[0] <= '9')
    && forall i :: 0 <= i < |s| ==> IsWordChar(s[i])
  }

  /** The pattern: a host that starts with a letter or digit, and at least one further segment. */
  predicate IsRepoName(s: string) {
    var slash := IndexByte(s, '/');
    slash >= 0 && IsHost(s[..slash]) && IsPath(s[slash + 1..])
  }

  /** A segment of the pattern, in its own characters. */
  predicate Segment(s: string) {
    s != "" && forall i :: 0 <= i < |s| ==>
      'a' <= s[i] <= 'z' || '0' <= s[i] <= '9' || s[i] == '.' || s[i] == '_' || s[i] == '-'
  }

  function Join(segments: seq<string>): string
    requires segments != []
  {
    if |segments| == 1 then segments[0] else segments[0] + ("/" + Join(segments[1..]))
  }

  ghost predicate Segments(segments: seq<string>) {
    segments != [] && forall i :: 0 <= i < |segments| ==> Segment(segments[i])
  }

  /** What the pattern matches: two segments or more, joined by slashes, the first beginning with a letter or digit. */
  ghost predicate Matches(s: string) {
    exists segments :: Segments(segments) && |segments| >= 2 && s == Join(segments) &&
                       ('a' <= segments[0][0] <= 'z' || '0' <= segments[0][0] <= '9')
  }

  lemma {:induction false} PathOfSegments(segments: seq<string>)
    requires Segments(segments)
    ensures IsPath(Join(segments))
  {
    if |segments| > 1 {
      PathOfSegments(segments[1..]);
      var head, tail := segments[0], Join(segments[1..]);
      assert head + ("/" + tail) == head + "/" + tail;
      PathGrows(head, tail);
    }
  }

  lemma PathGrows(head: string, tail: string)
    requires Segment(head) && IsPath(tail)
    ensures IsPath(head + "/" + tail)
  {
    var s := head + "/" + tail;
    assert forall i :: 0 <= i < |head| ==> s[i] == head[i];
    assert s[|head|] == '/' && forall i :: |head| < i < |s| ==> s[i] == tail[i - |head| - 1];
  }

  lemma {:induction false} SegmentsOfPath(s: string) returns (segments: seq<string>)
    requires IsPath(s)
    ensures Segments(segments) && s == Join(segments)
  {
    var slash := IndexByte(s, '/');
    if slash < 0 {
      return [s];
    }
    var head, tail := s[..slash], s[slash + 1..];
    PathShrinks(s, slash);
    var rest := SegmentsOfPath(tail);
    segments := [head] + rest;
    assert segments[1..] == rest && s == head + ("/" + tail);
  }

  lemma PathShrinks(s: string, slash: nat)
    requires IsPath(s) && slash < |s| && s[slash] == '/' && '/' !in s[..slash]
    ensures Segment(s[..slash]) && IsPath(s[slash + 1..])
  {
    var head, tail := s[..slash], s[slash + 1..];
    assert slash > 0 && slash < |s| - 1;
    assert forall i :: 0 <= i < slash ==> head[i] == s[i] && head[i] in head;
    assert forall i :: 0 <= i < |tail| ==> tail[i] == s[slash + 1 + i];
    assert s[slash + 1] != '/';
  }

  /** A name is accepted exactly if the pattern matches it. */
  lemma PatternExactly(s: string)
    ensures IsRepoName(s) <==> Matches(s)
  {
    if IsRepoName(s) {
      AcceptedIsMatched(s);
    }
    if segments :| Segments(segments) && |segments| >= 2 && s == Join(segments) &&
                   ('a' <= segments[0][0] <= 'z' || '0' <= segments[0][0] <= '9') {
      PathOfSegments(segments[1..]);
      MatchedIsAccepted(segments[0], Join(segments[1..]));
    }
  }

  lemma AcceptedIsMatched(s: string)
    requires IsRepoName(s)
    ensures Matches(s)
  {
    var slash := IndexByte(s, '/');
    var rest := SegmentsOfPath(s[slash + 1..]);
    var segments := [s[..slash]] + rest;
    assert segments[1..] == rest && s == s[..slash] + ("/" + s[slash + 1..]);
    assert Segments(segments) && segments[0][0] == s[0];
  }

  lemma MatchedIsAccepted(host: string, path: string)
    requires Segment(host) && ('a' <= host[0] <= 'z' || '0' <= host[0] <= '9') && IsPath(path)
    ensures IsRepoName(host + ("/" + path))
  {
    HostOf(host, path);
  }

  const SCHEMES: seq<string> := ["https://", "http://", "ssh://", "git://"]

  function StripFrom(r: string, k: nat): string
    requires k <= |SCHEMES|
    decreases |SCHEMES| - k
  {
    if k == |SCHEMES| then r else StripFrom(TrimPrefix(r, SCHEMES[k]), k + 1)
  }

  function StripUser(r: string): string {
    var i := IndexByte(r, '@');
    if i >= 0 && '/' !in r[..i] then r[i + 1..] else r
  }

  predicate IsDigits(s: string) { s != "" && forall i :: 0 <= i < |s| ==> '0' <= s[i] <= '9' }

  function StripPort(r: string): string {
    var i := IndexByte(r, ':');
    if i >= 0 && '/' !in r[..i] then
      var rest := r[i + 1..];
      var j := IndexByte(rest, '/');
      if j >= 0 && IsDigits(rest[..j]) then r[..i] + rest[j..] else r[..i] + "/" + rest
    else r
  }

  const MAX_LENGTH := 200

  function Finish(r: string): Option<string> {
    var t := TrimSuffix(TrimSuffix(r, "/"), ".git");
    if |t| > MAX_LENGTH || !IsRepoName(t) then None else Some(t)
  }

  function Canonical(raw: string): Option<string> {
    Finish(StripPort(StripUser(StripFrom(TrimSpace(ToLower(raw)), 0))))
  }

  method AllDigits(s: string) returns (all: bool)
    ensures all <==> IsDigits(s)
  {
    if s == "" {
      return false;
    }
    for k := 0 to |s|
      invariant forall i :: 0 <= i < k ==> '0' <= s[i] <= '9'
    {
      if s[k] < '0' || s[k] > '9' {
        return false;
      }
    }
    return true;
  }

  /** host:owner/name becomes host/owner/name, host:port/owner/name loses the port. */
  method RewriteColon(line: string) returns (r: string)
    ensures r == StripPort(line)
  {
    r := line;
    var colon := IndexByte(r, ':');
    if colon >= 0 && '/' !in r[..colon] {
      var rest := r[colon + 1..];
      var slash := IndexByte(rest, '/');
      var port := false;
      if slash >= 0 {
        port := AllDigits(rest[..slash]);
      }
      if port {
        r := r[..colon] + rest[slash..];
      } else {
        r := r[..colon] + "/" + rest;
      }
    }
  }

  method Normalize(raw: string) returns (result: Option<string>)
    ensures result == Canonical(raw)
  {
    var r := TrimSpace(ToLower(raw));
    for k := 0 to |SCHEMES|
      invariant StripFrom(r, k) == StripFrom(TrimSpace(ToLower(raw)), 0)
    {
      r := TrimPrefix(r, SCHEMES[k]);
    }
    var at := IndexByte(r, '@');
    if at >= 0 && '/' !in r[..at] {
      r := r[at + 1..];
    }
    r := RewriteColon(r);
    r := TrimSuffix(TrimSuffix(r, "/"), ".git");
    if |r| > MAX_LENGTH || !IsRepoName(r) {
      return None;
    }
    return Some(r);
  }

  // ---------------------------------------------------------------- what the spellings have in common

  predicate NoDoubleSlash(s: string) { forall i :: 0 <= i < |s| - 1 ==> !(s[i] == '/' && s[i + 1] == '/') }

  lemma NoScheme(s: string, k: nat)
    requires NoDoubleSlash(s) && k < |SCHEMES|
    ensures TrimPrefix(s, SCHEMES[k]) == s
  {
    var p := SCHEMES[k];
    assert |p| >= 6 && p[|p| - 2] == '/' && p[|p| - 1] == '/';
    assert |p| <= |s| ==> s[..|p|][|p| - 2] == s[|p| - 2] && s[..|p|][|p| - 1] == s[|p| - 1];
  }

  lemma {:induction false} NoSchemeFrom(s: string, k: nat)
    requires NoDoubleSlash(s) && k <= |SCHEMES|
    ensures StripFrom(s, k) == s
    decreases |SCHEMES| - k
  {
    if k < |SCHEMES| {
      NoScheme(s, k);
      NoSchemeFrom(s, k + 1);
    }
  }

  lemma OtherScheme(k: nat, m: nat, s: string)
    requires k < m < |SCHEMES|
    ensures TrimPrefix(SCHEMES[m] + s, SCHEMES[k]) == SCHEMES[m] + s
  {
    var line, p := SCHEMES[m] + s, SCHEMES[k];
    var at := if k == 0 && m == 1 then 4 else 0;
    assert p[at] != SCHEMES[m][at] && line[at] == SCHEMES[m][at];
    assert |p| <= |line| ==> line[..|p|][at] == line[at];
  }

  lemma {:induction false} SchemeStrippedFrom(k: nat, m: nat, s: string)
    requires k <= m < |SCHEMES| && NoDoubleSlash(s)
    ensures StripFrom(SCHEMES[m] + s, k) == s
    decreases m - k
  {
    var line := SCHEMES[m] + s;
    if k < m {
      OtherScheme(k, m, s);
      SchemeStrippedFrom(k + 1, m, s);
    } else {
      assert line[..|SCHEMES[m]|] == SCHEMES[m] && line[|SCHEMES[m]|..] == s;
      NoSchemeFrom(s, k + 1);
    }
  }

  predicate IsScheme(s: string) { s in ["", "https://", "http://", "ssh://", "git://"] }

  lemma SchemeNumber(scheme: string) returns (m: nat)
    requires IsScheme(scheme) && scheme != ""
    ensures m < |SCHEMES| && SCHEMES[m] == scheme
  {
    m := if scheme == "https://" then 0 else if scheme == "http://" then 1 else if scheme == "ssh://" then 2 else 3;
  }

  lemma SchemeStripped(scheme: string, s: string)
    requires IsScheme(scheme) && NoDoubleSlash(s)
    ensures StripFrom(scheme + s, 0) == s
  {
    if scheme == "" {
      assert scheme + s == s;
      NoSchemeFrom(s, 0);
    } else {
      var m := SchemeNumber(scheme);
      SchemeStrippedFrom(0, m, s);
    }
  }

  /** No user, or a user ended by its at-sign. */
  predicate IsUser(u: string) {
    u == "" || (u[|u| - 1] == '@' && '@' !in u[..|u| - 1] && '/' !in u && SpaceFree(u))
  }

  lemma UserStripped(user: string, s: string)
    requires IsUser(user) && '@' !in s
    ensures StripUser(user + s) == s
  {
  }

  datatype Joint = Slash | Port(port: string) | Colon

  predicate IsJoint(j: Joint) { j.Port? ==> IsDigits(j.port) }

  function JointText(j: Joint): string {
    match j case Slash => "/" case Port(p) => ":" + p + "/" case Colon => ":"
  }

  predicate IsSuffix(s: string) { s == "" || s == "/" || s == ".git" || s == ".git/" }

  lemma HostEnds(host: string, rest: string)
    requires IsHost(host)
    ensures var line := host + (":" + rest);
            IndexByte(line, ':') == |host| && line[..|host|] == host && line[|host| + 1..] == rest && '/' !in host
  {
    var line := host + (":" + rest);
    assert line[|host|] == ':' && forall i :: 0 <= i < |host| ==> line[i] == host[i];
  }

  lemma PortGoes(host: string, port: string, path: string)
    requires IsHost(host) && IsDigits(port)
    ensures StripPort(host + (":" + (port + ("/" + path)))) == host + ("/" + path)
  {
    HostEnds(host, port + ("/" + path));
    FirstSlash(port, path);
  }

  /** An owner of digits is taken for a port. */
  lemma ColonBecomesSlash(host: string, owner: string, tail: string)
    requires IsHost(host) && owner != "" && '/' !in owner
    ensures StripPort(host + (":" + (owner + ("/" + tail)))) ==
            if IsDigits(owner) then host + ("/" + tail) else host + "/" + (owner + ("/" + tail))
  {
    var rest := owner + ("/" + tail);
    HostEnds(host, rest);
    FirstSlash(owner, tail);
    assert rest[..|owner|] == owner;
  }

  /** After scheme and user: what the colon step makes of each way to join host and path. */
  lemma PortStripped(host: string, j: Joint, owner: string, tail: string)
    requires IsHost(host) && IsJoint(j) && owner != "" && '/' !in owner && ':' !in owner && ':' !in tail
    ensures StripPort(host + JointText(j) + (owner + ("/" + tail))) ==
            if j.Colon? && IsDigits(owner) then host + ("/" + tail) else host + "/" + (owner + ("/" + tail))
  {
    var path := owner + ("/" + tail);
    match j {
      case Slash =>
        assert ':' !in host + "/" + path;
      case Port(port) =>
        assert host + JointText(j) + path == host + (":" + (port + ("/" + path)));
        PortGoes(host, port, path);
        assert host + ("/" + path) == host + "/" + path;
      case Colon =>
        assert host + ":" + path == host + (":" + path);
        ColonBecomesSlash(host, owner, tail);
    }
  }

  lemma FirstSlash(a: string, b: string)
    requires '/' !in a
    ensures var s := a + ("/" + b); IndexByte(s, '/') == |a| && s[..|a|] == a && s[|a|..] == "/" + b
  {
    var s := a + ("/" + b);
    assert s[|a|] == '/' && forall i :: 0 <= i < |a| ==> s[i] == a[i];
  }

  /** The two suffix trims: a slash, then ".git" once. */
  lemma SuffixTrimmed(c: string, suffix: string)
    requires c != "" && c[|c| - 1] != '/' && IsSuffix(suffix)
    ensures TrimSuffix(TrimSuffix(c + suffix, "/"), ".git") ==
            if suffix == ".git" || suffix == ".git/" then c else TrimSuffix(c, ".git")
  {
    var s := c + suffix;
    var inner := if suffix == "/" || suffix == ".git/" then c + suffix[..|suffix| - 1] else s;
    assert TrimSuffix(s, "/") == inner by {
      assert s[|s| - 1..] == [s[|s| - 1]];
      assert s[|s| - 1] == if suffix == "" then c[|c| - 1] else suffix[|suffix| - 1];
      if suffix == "/" || suffix == ".git/" {
        assert s[..|s| - 1] == inner;
      }
    }
    if suffix == ".git" || suffix == ".git/" {
      assert inner == c + ".git";
      assert inner[|c|..] == ".git" && inner[..|c|] == c;
    } else {
      assert inner == c;
    }
  }

  /** An owner, as in a path: one segment. */
  predicate IsOwner(s: string) { s != "" && forall i :: 0 <= i < |s| ==> IsWordChar(s[i]) }

  function NameOf(host: string, owner: string, tail: string): string { host + "/" + (owner + ("/" + tail)) }

  lemma NameIsRepoName(host: string, owner: string, tail: string)
    requires IsHost(host) && IsOwner(owner) && IsPath(tail)
    ensures IsRepoName(NameOf(host, owner, tail)) && IsRepoName(host + ("/" + tail))
  {
    var path := owner + ("/" + tail);
    assert path[0] == owner[0] && path[|path| - 1] == tail[|tail| - 1] && path[|owner|] == '/';
    assert forall i :: |owner| < i < |path| ==> path[i] == tail[i - |owner| - 1];
    assert forall i :: 0 <= i < |owner| ==> path[i] == owner[i];
    assert IsPath(path);
    HostOf(host, path);
    assert NameOf(host, owner, tail) == host + ("/" + path);
    HostOf(host, tail);
  }

  lemma HostOf(host: string, path: string)
    requires IsHost(host) && IsPath(path)
    ensures IsRepoName(host + ("/" + path))
  {
  }

  /** Everything after the scheme: the text of a spelling. */
  function Body(user: string, host: string, j: Joint, owner: string, tail: string, suffix: string): string {
    user + (host + JointText(j) + (owner + ("/" + (tail + suffix))))
  }

  lemma RestIsPlain(host: string, j: Joint, owner: string, tail: string, suffix: string)
    requires IsHost(host) && IsJoint(j) && IsOwner(owner) && IsPath(tail) && IsSuffix(suffix)
    ensures var rest := host + JointText(j) + (owner + ("/" + (tail + suffix)));
            Plain(rest)
  {
    var end := tail + suffix;
    SuffixIsPlain(tail, suffix);
    OneSlash(owner, end);
    var front := host + JointText(j);
    FrontIsPlain(host, j);
    Joined(front, owner + ("/" + end));
  }

  predicate Plain(s: string) { NoDoubleSlash(s) && SpaceFree(s) && '@' !in s }

  lemma SuffixIsPlain(tail: string, suffix: string)
    requires IsPath(tail) && IsSuffix(suffix)
    ensures Plain(tail + suffix) && (tail + suffix)[0] != '/'
  {
  }

  lemma OneSlash(owner: string, end: string)
    requires IsOwner(owner) && Plain(end) && end != "" && end[0] != '/'
    ensures Plain(owner + ("/" + end)) && (owner + ("/" + end))[0] != '/'
  {
  }

  lemma FrontIsPlain(host: string, j: Joint)
    requires IsHost(host) && IsJoint(j)
    ensures Plain(host + JointText(j))
  {
  }

  lemma Joined(front: string, path: string)
    requires Plain(front) && Plain(path) && path != "" && path[0] != '/'
    ensures Plain(front + path)
  {
  }

  lemma UserKeepsPlain(user: string, rest: string)
    requires IsUser(user) && NoDoubleSlash(rest) && SpaceFree(rest)
    ensures NoDoubleSlash(user + rest) && SpaceFree(user + rest)
  {
  }

  /** What the last step makes of the two outcomes of the colon step. */
  lemma Finished(c: string, suffix: string)
    requires IsRepoName(c) && |c| <= MAX_LENGTH && c[|c| - 1] != '/' && IsSuffix(suffix)
    ensures Finish(c + suffix) == Some(c) <==> suffix == ".git" || suffix == ".git/" || !HasSuffix(c, ".git")
    ensures Finish(c + suffix).Some? ==> |Finish(c + suffix).value| <= |c|
  {
    SuffixTrimmed(c, suffix);
  }

  /** Any scheme, user, port, letter case and suffix, and both ways to write the colon, give the same name; the
      exceptions are an owner of digits after a colon, read as a port, and a name that itself ends in ".git". */
  lemma SpellingsAgree(raw: string, left: string, scheme: string, user: string, host: string, j: Joint, owner: string,
                       tail: string, suffix: string, right: string)
    requires Blank(left) && Blank(right) && IsScheme(scheme) && IsUser(user) && IsHost(host) && IsJoint(j)
    requires IsOwner(owner) && IsPath(tail) && IsSuffix(suffix) && |NameOf(host, owner, tail)| <= 200
    requires ToLower(raw) == left + (scheme + Body(user, host, j, owner, tail, suffix)) + right
    ensures Canonical(raw) == Some(NameOf(host, owner, tail)) <==>
            !(j.Colon? && IsDigits(owner)) &&
            (suffix == ".git" || suffix == ".git/" || !HasSuffix(NameOf(host, owner, tail), ".git"))
  {
    BeforeTheSuffix(raw, left, scheme, user, host, j, owner, tail, suffix, right);
    if j.Colon? && IsDigits(owner) {
      OwnerLost(host, owner, tail, suffix);
    } else {
      NameIsRepoName(host, owner, tail);
      Finished(NameOf(host, owner, tail), suffix);
    }
  }

  lemma OwnerLost(host: string, owner: string, tail: string, suffix: string)
    requires IsHost(host) && IsOwner(owner) && IsPath(tail) && IsSuffix(suffix) &&
             |NameOf(host, owner, tail)| <= MAX_LENGTH
    ensures Finish(host + ("/" + tail) + suffix) != Some(NameOf(host, owner, tail))
  {
    NameIsRepoName(host, owner, tail);
    Finished(host + ("/" + tail), suffix);
    assert |host + ("/" + tail)| < |NameOf(host, owner, tail)|;
  }

  /** All steps but the last. */
  lemma BeforeTheSuffix(raw: string, left: string, scheme: string, user: string, host: string, j: Joint, owner: string,
                        tail: string, suffix: string, right: string)
    requires Blank(left) && Blank(right) && IsScheme(scheme) && IsUser(user) && IsHost(host) && IsJoint(j)
    requires IsOwner(owner) && IsPath(tail) && IsSuffix(suffix)
    requires ToLower(raw) == left + (scheme + Body(user, host, j, owner, tail, suffix)) + right
    ensures Canonical(raw) ==
            Finish((if j.Colon? && IsDigits(owner) then host + ("/" + tail) else NameOf(host, owner, tail)) + suffix)
  {
    var rest := host + JointText(j) + (owner + ("/" + (tail + suffix)));
    RestIsPlain(host, j, owner, tail, suffix);
    Undressed(left, scheme, user, rest, right);
    OwnerAndTail(owner, tail, suffix);
    PortStripped(host, j, owner, tail + suffix);
    SuffixLast(host, owner, tail, suffix);
  }

  lemma Undressed(left: string, scheme: string, user: string, rest: string, right: string)
    requires Blank(left) && Blank(right) && IsScheme(scheme) && IsUser(user)
    requires rest != "" && '@' !in rest && NoDoubleSlash(rest) && SpaceFree(rest)
    ensures StripUser(StripFrom(TrimSpace(left + (scheme + (user + rest)) + right), 0)) == rest
  {
    UserKeepsPlain(user, rest);
    TrimSpelling(left, scheme, user + rest, right);
    SchemeStripped(scheme, user + rest);
    UserStripped(user, rest);
  }

  lemma SuffixLast(host: string, owner: string, tail: string, suffix: string)
    ensures host + ("/" + (tail + suffix)) == host + ("/" + tail) + suffix
    ensures host + "/" + (owner + ("/" + (tail + suffix))) == NameOf(host, owner, tail) + suffix
  {
  }

  lemma OwnerAndTail(owner: string, tail: string, suffix: string)
    requires IsOwner(owner) && IsPath(tail) && IsSuffix(suffix)
    ensures '/' !in owner && ':' !in owner && ':' !in tail + suffix
  {
  }

  lemma TrimSpelling(left: string, scheme: string, body: string, right: string)
    requires Blank(left) && Blank(right) && IsScheme(scheme) && body != "" && SpaceFree(body)
    ensures TrimSpace(left + (scheme + body) + right) == scheme + body
  {
    var s := scheme + body;
    assert s[|s| - 1] == body[|body| - 1];
    assert s[0] == if scheme == "" then body[0] else scheme[0];
    assert forall k :: 0 <= k < |SCHEMES| ==> SCHEMES[k] != "" && !IsSpace(SCHEMES[k][0]);
    TrimPadded(left, s, right);
  }

  /** A canonical name is its own canonical name exactly when it does not end in ".git". */
  lemma FixedPoint(raw: string)
    requires Canonical(raw).Some?
    ensures Canonical(Canonical(raw).value) == Canonical(raw) <==> !HasSuffix(Canonical(raw).value, ".git")
  {
    var c := Canonical(raw).value;
    CanonicalIsCanonical(raw);
    Untouched(c);
    assert c + "" == c;
    Finished(c, "");
  }

  /** Whatever is accepted matches the pattern and is no longer than 200 characters. */
  lemma AcceptedMatches(raw: string)
    requires Canonical(raw).Some?
    ensures Matches(Canonical(raw).value) && |Canonical(raw).value| <= 200
  {
    CanonicalIsCanonical(raw);
    PatternExactly(Canonical(raw).value);
  }

  lemma CanonicalIsCanonical(raw: string)
    requires Canonical(raw).Some?
    ensures IsRepoName(Canonical(raw).value) && |Canonical(raw).value| <= MAX_LENGTH
  {
  }

  /** No step but the last has anything to do. */
  lemma Untouched(c: string)
    requires IsRepoName(c)
    ensures Canonical(c) == Finish(c) && c[|c| - 1] != '/'
  {
    PlainName(c);
    assert ToLower(c) == c;
    AlreadyTrimmed(c);
    NoSchemeFrom(c, 0);
    assert StripUser(c) == c && StripPort(c) == c;
  }

  lemma PlainName(c: string)
    requires IsRepoName(c)
    ensures Plain(c) && ':' !in c && c != "" && c[|c| - 1] != '/'
    ensures forall i :: 0 <= i < |c| ==> Lower(c[i]) == c[i]
  {
  }
}
