/** Which version a request asks for, and which routes answer to it. */
module Versioning {
  import opened Prelude

  const NOT_SET := "ellar.common.constants.NOT_SET_TYPE"

  /** `str(default_version)`. */
  function DefaultText(defaultVersion: Option<string>): string {
    defaultVersion.GetOr("None")
  }

  // ----- a version in the path -----

  /** The path of `/{version}/{path:path}`: a first segment, and what follows the next slash. */
  datatype Segments = Segments(version: string, rest: string)

  /** How far the text goes without a slash. */
  function UntilSlash(s: string): (n: nat)
    ensures n <= |s| && (forall i :: 0 <= i < n ==> s[i] != '/') && (n < |s| ==> s[n] == '/')
  {
    if s == [] || s[0] == '/' then 0 else 1 + UntilSlash(s[1..])
  }

  /** What `.*` followed by the end of the text can take: one trailing newline may be left over. */
  function WholeLine(s: string): Option<string> {
    if '\n' !in s then Some(s)
    else if '\n' !in s[..|s| - 1] then Some(s[..|s| - 1])
    else None
  }

  function SplitPath(path: string): Option<Segments> {
    if path == [] || path[0] != '/' then None
    else
      var n := UntilSlash(path[1..]);
      if n == 0 || n + 1 == |path| then None
      else
        match WholeLine(path[n + 2..])
        case None => None
        case Some(rest) => Some(Segments(path[1..n + 1], rest))
  }

  /** A rest of a line, with or without the newline that ends it. */
  predicate IsLine(tail: string, rest: string) {
    tail == rest || tail == rest + "\n"
  }

  function JoinPath(version: string, tail: string): string {
    "/" + version + "/" + tail
  }

  /** A path splits this way exactly when it is a slash, a segment, a slash and the rest of a line. */
  lemma SplitPathIff(path: string, version: string, rest: string)
    requires '\n' !in rest
    ensures SplitPath(path) == Some(Segments(version, rest)) <==>
            version != "" && '/' !in version && exists tail :: IsLine(tail, rest) && path == JoinPath(version, tail)
  {
    if version != "" && '/' !in version && exists tail :: IsLine(tail, rest) && path == JoinPath(version, tail) {
      var tail :| IsLine(tail, rest) && path == JoinPath(version, tail);
      JoinedPathSplits(version, tail, rest);
    }
    if SplitPath(path) == Some(Segments(version, rest)) {
      var tail := SplitPathJoins(path);
    }
  }

  lemma JoinedPathSplits(version: string, tail: string, rest: string)
    requires version != "" && '/' !in version && '\n' !in rest && IsLine(tail, rest)
    ensures SplitPath(JoinPath(version, tail)) == Some(Segments(version, rest))
  {
    UntilSlashIs(version, tail);
    JoinPathSlices(version, tail);
    LineIsWhole(tail, rest);
  }

  lemma JoinPathSlices(version: string, tail: string)
    ensures var path := JoinPath(version, tail);
            && |path| >= |version| + 2 && path[0] == '/' && path[1..] == version + "/" + tail
            && path[1..|version| + 1] == version && path[|version| + 2..] == tail
  {
  }

  lemma LineIsWhole(tail: string, rest: string)
    requires '\n' !in rest && IsLine(tail, rest)
    ensures WholeLine(tail) == Some(rest)
  {
    if tail != rest {
      assert tail[..|tail| - 1] == rest && tail[|tail| - 1] == '\n';
    }
  }

  lemma SplitPathJoins(path: string) returns (tail: string)
    requires SplitPath(path).Some?
    ensures var Segments(version, rest) := SplitPath(path).value;
            version != "" && '/' !in version && IsLine(tail, rest) && path == JoinPath(version, tail)
  {
    var n := UntilSlash(path[1..]);
    tail := path[n + 2..];
    assert path[n + 1] == path[1..][n];
    CutAtSlash(path, n);
    WholeLineIs(tail);
  }

  lemma CutAtSlash(path: string, n: nat)
    requires n + 1 < |path| && path[0] == '/' && path[n + 1] == '/'
    ensures path == JoinPath(path[1..n + 1], path[n + 2..])
  {
  }

  lemma WholeLineIs(s: string)
    requires WholeLine(s).Some?
    ensures IsLine(s, WholeLine(s).value)
  {
    if '\n' in s {
      assert s == s[..|s| - 1] + [s[|s| - 1]];
    }
  }

  lemma {:induction false} UntilSlashIs(version: string, tail: string)
    requires '/' !in version
    ensures UntilSlash(version + "/" + tail) == |version|
    decreases |version|
  {
    var s := version + "/" + tail;
    if version != "" {
      assert s[1..] == version[1..] + "/" + tail;
      UntilSlashIs(version[1..], tail);
    }
  }

  predicate IsDigitAt(s: string, i: nat) {
    i < |s| && '0' <= s[i] <= '9'
  }

  predicate IsOneToNineAt(s: string, i: nat) {
    i < |s| && '1' <= s[i] <= '9'
  }

  predicate IsVAt(s: string, i: nat) {
    i < |s| && (s[i] == 'v' || s[i] == 'V')
  }

  /**
   `(/?(v)?[1-9]?(.[0-9]))` at the start of a text, case ignored: each optional
   part is taken or not.
   */
  ghost predicate VersionRegex(s: string) {
    exists slash: nat, v: nat, d: nat :: slash <= 1 && v <= 1 && d <= 1 && RegexTakes(s, slash, v, d)
  }

  predicate RegexTakes(s: string, slash: nat, v: nat, d: nat) {
    && (slash == 1 ==> s != "" && s[0] == '/')
    && (v == 1 ==> IsVAt(s, slash))
    && (d == 1 ==> IsOneToNineAt(s, slash + v))
    && IsDigitAt(s, slash + v + d + 1)
    && s[slash + v + d] != '\n'
  }

  /** Read off the segment: a digit comes first, or after any one character, or after a `v` and any one character. */
  predicate LooksLikeVersion(v: string) {
    || IsDigitAt(v, 0)
    || (IsDigitAt(v, 1) && v[0] != '\n')
    || (IsDigitAt(v, 2) && IsVAt(v, 0) && v[1] != '\n')
  }

  lemma VersionRegexIffLooksLikeVersion(v: string)
    ensures VersionRegex("/" + v) <==> LooksLikeVersion(v)
  {
    var s := "/" + v;
    assert forall i: nat :: i < |v| ==> s[i + 1] == v[i];
    if IsDigitAt(v, 0) {
      assert RegexTakes(s, 0, 0, 0);
    } else if IsDigitAt(v, 1) && v[0] != '\n' {
      assert RegexTakes(s, 1, 0, 0);
    } else if IsDigitAt(v, 2) && IsVAt(v, 0) && v[1] != '\n' {
      assert RegexTakes(s, 1, 1, 0);
    }
  }

  /** The digits are the ten, and the `v` may be large. */
  lemma LooksLikeVersionIff(v: string)
    ensures LooksLikeVersion(v) <==>
            || (|v| > 0 && v[0] in "0123456789")
            || (|v| > 1 && v[0] != '\n' && v[1] in "0123456789")
            || (|v| > 2 && v[0] in "vV" && v[1] != '\n' && v[2] in "0123456789")
  {
    if |v| > 0 {
      TenDigits(v[0]);
    }
    if |v| > 1 {
      TenDigits(v[1]);
    }
    if |v| > 2 {
      TenDigits(v[2]);
    }
  }

  lemma TenDigits(c: char)
    ensures c in "0123456789" <==> '0' <= c <= '9'
  {
    if '0' <= c <= '9' {
      assert "0123456789"[c as int - '0' as int] == c;
    }
  }

  /** `text.replace("v", "")`. */
  function WithoutV(s: string): (r: string)
    ensures forall c :: c in r <==> c in s && c != 'v'
  {
    if s == [] then []
    else
      assert s == [s[0]] + s[1..];
      if s[0] == 'v' then WithoutV(s[1..]) else [s[0]] + WithoutV(s[1..])
  }

  /** Every small `v` goes, wherever it is, and everything else stays in its place. */
  lemma {:induction false} WithoutVPiecewise(a: string, b: string)
    ensures WithoutV(a + b) == WithoutV(a) + WithoutV(b)
    ensures WithoutV("v") == ""
    ensures 'v' !in a ==> WithoutV(a) == a
    decreases |a|
  {
    if a == [] {
      assert a + b == b;
    } else {
      WithoutVPiecewise(a[1..], b);
      assert (a + b)[1..] == a[1..] + b;
      assert a == [a[0]] + a[1..];
    }
  }

  /** The version in the path and the path without it, if the path starts with one. */
  function PathVersion(path: string): Option<Segments> {
    match SplitPath(path)
    case None => None
    case Some(segments) => if LooksLikeVersion(segments.version) then Some(segments) else None
  }

  /** A version taken from the path never reads as missing, so it is taken at most once. */
  lemma PathVersionsAreNotEmpty(path: string)
    requires PathVersion(path).Some?
    ensures WithoutV(PathVersion(path).value.version) != ""
  {
    var v := PathVersion(path).value.version;
    var i := if IsDigitAt(v, 0) then 0 else if IsDigitAt(v, 1) then 1 else 2;
    assert v[i] in v && v[i] != 'v';
    assert v[i] in WithoutV(v);
  }

  // ----- the resolver -----

  /** Where the version comes from: nowhere, the path, or a text found in the request. */
  datatype Source = Nowhere | InPath(parameter: string) | InRequest(found: string)

  class VersionResolver {
    const source: Source
    const defaultVersion: Option<string>
    var path: string
    var pathParams: map<string, string>
    var resolved: Option<string>
    var matchedAnyRoute: bool

    constructor (source: Source, defaultVersion: Option<string>, path: string)
      ensures this.source == source && this.defaultVersion == defaultVersion
      ensures this.path == path && pathParams == map[] && resolved == None && !matchedAnyRoute
    {
      this.source, this.defaultVersion := source, defaultVersion;
      this.path, pathParams, resolved, matchedAnyRoute := path, map[], None, false;
    }

    /** The request's version, whatever has been resolved so far. */
    function Version(): string
      reads this
    {
      if resolved.Some? && resolved.value != "" then resolved.value
      else match source
        case Nowhere => NOT_SET
        case InRequest(found) => found
        case InPath(parameter) =>
          if PathVersion(path).Some? then WithoutV(PathVersion(path).value.version) else DefaultText(defaultVersion)
    }

    /** Nothing is left to be taken from the path. */
    predicate Settled()
      reads this
    {
      source.InPath? ==> (resolved.Some? && resolved.value != "") || PathVersion(path).None?
    }

    /** `_resolve_url_prefix`: takes the version out of the path. */
    method ResolveUrlPrefix(parameter: string) returns (version: Option<string>)
      modifies this`path, this`pathParams
      ensures var found := PathVersion(old(path));
              if found.Some? then
                && version == Some(WithoutV(found.value.version))
                && path == "/" + found.value.rest
                && pathParams == old(pathParams)[parameter := found.value.version]
              else version == None && path == old(path) && pathParams == old(pathParams)
    {
      var segments := SplitPath(path);
      if segments.Some? && LooksLikeVersion(segments.value.version) {
        pathParams := pathParams[parameter := segments.value.version];
        path := "/" + segments.value.rest;
        return Some(WithoutV(segments.value.version));
      }
      return None;
    }

    /** The path once any version has been taken out of it. */
    function SettledPath(): string
      reads this
    {
      if Settled() then path else "/" + PathVersion(path).value.rest
    }

    /** `resolve`: works the version out once and remembers it. */
    method Resolve() returns (version: string)
      modifies this`path, this`pathParams, this`resolved
      ensures version == old(Version()) == Version()
      ensures Settled() && path == old(SettledPath())
      ensures resolved == Some(version)
      ensures old(resolved).Some? && old(resolved).value != "" ==>
                version == old(resolved).value && path == old(path) && pathParams == old(pathParams)
      ensures old(resolved).None? ==>
                match source
                case Nowhere => version == NOT_SET && path == old(path)
                case InRequest(found) => version == found && path == old(path)
                case InPath(parameter) =>
                  match SplitPath(old(path))
                  case Some(Segments(v, rest)) =>
                    if LooksLikeVersion(v) then version == WithoutV(v) && path == "/" + rest
                    else version == (if defaultVersion.Some? then defaultVersion.value else "None") && path == old(path)
                  case None =>
                    version == (if defaultVersion.Some? then defaultVersion.value else "None") && path == old(path)
    {
      if resolved.Some? && resolved.value != "" {
        return resolved.value;
      }
      match source {
        case Nowhere => version := NOT_SET;
        case InRequest(found) => version := found;
        case InPath(parameter) =>
          var prefix := ResolveUrlPrefix(parameter);
          if prefix.Some? {
            PathVersionsAreNotEmpty(old(path));
          }
          version := if prefix.None? || prefix.value == "" then DefaultText(defaultVersion) else prefix.value;
      }
      resolved := Some(version);
    }

    /** Whether the route answers to the request's version. */
    method CanActivate(routeVersions: set<string>) returns (ok: bool)
      modifies this
      ensures ok <==> Accepts(old(Version()), defaultVersion, routeVersions)
      ensures matchedAnyRoute && Version() == old(Version())
      ensures Settled() && path == old(SettledPath())
    {
      matchedAnyRoute := true;
      var version := Resolve();
      if version == NOT_SET {
        return true;
      }
      if routeVersions != {} && version !in routeVersions {
        return false;
      }
      ok := version == DefaultText(defaultVersion) || version in routeVersions;
    }

    /** However many routes are tried, the path loses at most one version and all get the same answer. */
    method TryRoutes(routes: seq<set<string>>) returns (answers: seq<bool>)
      modifies this
      ensures |answers| == |routes|
      ensures forall i :: 0 <= i < |routes| ==> answers[i] == Accepts(old(Version()), defaultVersion, routes[i])
      ensures routes != [] ==> Settled()
      ensures path == if routes == [] then old(path) else old(SettledPath())
    {
      answers := [];
      var i := 0;
      while i < |routes|
        invariant 0 <= i == |answers| <= |routes|
        invariant forall k :: 0 <= k < i ==> answers[k] == Accepts(old(Version()), defaultVersion, routes[k])
        invariant Version() == old(Version())
        invariant if i == 0 then path == old(path) && resolved == old(resolved)
                  else Settled() && path == old(SettledPath())
      {
        var ok := CanActivate(routes[i]);
        answers := answers + [ok];
        i := i + 1;
      }
    }
  }

  /**
   A request's version and a route's versions: no versioning, the route's own, or the default on a route
   without any.
   */
  predicate Accepts(version: string, defaultVersion: Option<string>, routeVersions: set<string>) {
    version == NOT_SET ||
    if routeVersions == {} then version == DefaultText(defaultVersion) else version in routeVersions
  }
}
