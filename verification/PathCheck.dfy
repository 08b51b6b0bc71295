/**
 libex_core/audible/client.py: the path check, against the dot-segment removal of
 section 5.2.4 of RFC 3986 that a URL library applies to what it is given.
 */
module PathCheck {
  import opened Common

  // ---------------------------------------------------------------- section 5.2.4 of RFC 3986

  /** Where the first "/" at or after this position is, or the end. */
  function SlashFrom(s: string, i: nat): (k: nat)
    requires i <= |s|
    ensures i <= k <= |s| && (forall j | i <= j < k :: s[j] != '/') && (k < |s| ==> s[k] == '/')
    decreases |s| - i
  {
    if i == |s| || s[i] == '/' then i else SlashFrom(s, i + 1)
  }

  /** Rule C's second half: the last segment of the output and the "/" before it. */
  function DropLast(output: string): (r: string)
    ensures |r| <= |output|
  {
    if output == "" then "" else if output[|output| - 1] == '/' then output[..|output| - 1] else DropLast(output[..|output| - 1])
  }

  /** The algorithm's two buffers. */
  datatype Buffers = Buffers(input: string, output: string)

  /** One round, by the first of rules A to E that applies. */
  function Round(b: Buffers): (next: Buffers)
    requires b.input != ""
    ensures |next.input| < |b.input|
  {
    var input, output := b.input, b.output;
    if "../" <= input then Buffers(input[3..], output)
    else if "./" <= input then Buffers(input[2..], output)
    else if "/./" <= input then Buffers(input[2..], output)
    else if input == "/." then Buffers("/", output)
    else if "/../" <= input then Buffers(input[3..], DropLast(output))
    else if input == "/.." then Buffers("/", DropLast(output))
    else if input == "." || input == ".." then Buffers("", output)
    else
      var end := SlashFrom(input, if input[0] == '/' then 1 else 0);
      Buffers(input[end..], output + input[..end])
  }

  function RemoveDots(input: string, output: string): string
    decreases |input|
  {
    if input == "" then output
    else
      var next := Round(Buffers(input, output));
      RemoveDots(next.input, next.output)
  }

  // ---------------------------------------------------------------- the check

  /** str.split("/") */
  function Split(s: string): (r: seq<string>)
    ensures |r| > 0
    decreases |s|
  {
    var k := SlashFrom(s, 0);
    if k == |s| then [s] else [s[..k]] + Split(s[k + 1..])
  }

  function LowerChar(c: char): char {
    if 'A' <= c <= 'Z' then (c as int + 32) as char else c
  }

  function Lower(s: string): (r: string)
    ensures |r| == |s|
  {
    if s == "" then "" else [LowerChar(s[0])] + Lower(s[1..])
  }

  predicate EncodedDot(s: string) {
    |s| >= 3 && s[0] == '%' && s[1] == '2' && (s[2] == 'e' || s[2] == 'E')
  }

  /** Each %2e, in either case, decoded to a dot; nothing else. */
  function Decode(s: string): string {
    if s == "" then "" else if EncodedDot(s) then "." + Decode(s[3..]) else [s[0]] + Decode(s[1..])
  }

  predicate Contains(s: string, part: string) {
    part <= s || (s != "" && Contains(s[1..], part))
  }

  predicate Dots(s: string) {
    s == "." || s == ".."
  }

  predicate UnsafeSegment(segment: string) {
    var lowered := Lower(segment);
    Dots(lowered) || Contains(lowered, "%2f") || Contains(lowered, "%5c") || Dots(Decode(lowered))
  }

  ghost predicate AnyUnsafe(segments: seq<string>) {
    exists i :: 0 <= i < |segments| && UnsafeSegment(segments[i])
  }

  /** _has_unsafe_path_segment */
  method HasUnsafePathSegment(path: string) returns (unsafe: bool)
    ensures unsafe <==> '?' in path || '#' in path || AnyUnsafe(Split(path))
  {
    if '?' in path || '#' in path {
      return true;
    }
    var segments := Split(path);
    var i := 0;
    while i < |segments|
      invariant 0 <= i <= |segments| && forall j | 0 <= j < i :: !UnsafeSegment(segments[j])
    {
      if UnsafeSegment(segments[i]) {
        return true;
      }
      i := i + 1;
    }
    return false;
  }

  ghost predicate Accepted(path: string) {
    && "/" <= path && !("//" <= path) && '\\' !in path && '?' !in path && '#' !in path
    && !AnyUnsafe(Split(path))
  }

  // ---------------------------------------------------------------- section 3.2 of RFC 3986

  /** Where a URL points: its scheme, its host, and its port if it names one. */
  datatype Target = Target(scheme: string, host: string, port: Option<string>)

  /** The first of these characters, or the end. */
  function Find(s: string, stops: set<char>): (k: nat)
    ensures k <= |s| && (k < |s| ==> s[k] in stops) && forall j | 0 <= j < k :: s[j] !in stops
  {
    if s == "" || s[0] in stops then 0 else 1 + Find(s[1..], stops)
  }

  /** What stands before the first "/", "?" or "#". */
  function Authority(rest: string): string {
    rest[..Find(rest, {'/', '?', '#'})]
  }

  /** What stands before an "@" is no part of the host, what follows a ":" is the port. */
  function Place(scheme: string, authority: string): Target {
    var at := Find(authority, {'@'});
    var place := if at == |authority| then authority else authority[at + 1..];
    var end := Find(place, {':'});
    Target(scheme, place[..end], if end == |place| then None else Some(place[end + 1..]))
  }

  /** scheme "://" authority, and the rest. */
  function TargetOf(url: string): Option<Target> {
    var colon := Find(url, {':'});
    if colon == |url| || !("//" <= url[colon + 1..]) then None
    else Some(Place(url[..colon], Authority(url[colon + 3..])))
  }

  /** No character that could end a host: a region's top-level domain, as REGION_MAP
      has them, is such. */
  predicate Plain(s: string) {
    forall c | c in s :: c !in {'/', '?', '#', '@', ':'}
  }

  predicate Intended(url: string, host: string) {
    match TargetOf(url)
    case Some(t) => t.host == host && t.scheme == "https" && (t.port == None || t.port == Some("443"))
    case None => false
  }

  lemma {:induction false} FindIs(s: string, stops: set<char>, k: nat)
    requires k <= |s| && (k < |s| ==> s[k] in stops) && forall j | 0 <= j < k :: s[j] !in stops
    ensures Find(s, stops) == k
  {
    if k > 0 {
      assert s[0] !in stops;
      FindIs(s[1..], stops, k - 1);
    }
  }

  lemma AuthorityEnds(authority: string, path: string)
    requires "/" <= path && forall c | c in authority :: c !in {'/', '?', '#'}
    ensures Authority(authority + path) == authority
  {
    hide Find;
    var rest := authority + path;
    forall k | 0 <= k < |authority| ensures rest[k] !in {'/', '?', '#'} {
      assert rest[k] == authority[k] && authority[k] in authority;
    }
    FindIs(rest, {'/', '?', '#'}, |authority|);
  }

  lemma PlainPlace(scheme: string, host: string)
    requires Plain(host)
    ensures Place(scheme, host) == Target(scheme, host, None)
  {
    hide Find;
    assert forall k | 0 <= k < |host| :: host[k] in host;
    FindIs(host, {'@'}, |host|);
    FindIs(host, {':'}, |host|);
    assert host[..|host|] == host;
  }

  lemma HttpsTarget(rest: string)
    ensures TargetOf("https://" + rest) == Some(Place("https", Authority(rest)))
  {
    hide Find, Place, Authority;
    var url := "https://" + rest;
    FindIs(url, {':'}, 5);
    assert url[..5] == "https" && url[6..] == "//" + rest && url[8..] == rest;
  }

  lemma PlainParts(a: string, b: string)
    requires Plain(a) && Plain(b)
    ensures Plain(a + b)
  {
  }

  /** The third check never fires: whatever path is put after the host, if it begins
      with "/", the URL is an https one that points at that host and names no port. */
  lemma OnlyTheHostIntended(host: string, path: string)
    requires Plain(host) && "/" <= path
    ensures TargetOf("https://" + (host + path)) == Some(Target("https", host, None))
    ensures Intended("https://" + (host + path), host)
  {
    hide Find, Place, Authority, TargetOf;
    HttpsTarget(host + path);
    AuthorityEnds(host, path);
    PlainPlace("https", host);
  }

  /** get_audible_url, its parse of the finished URL included. */
  method GetAudibleUrl(tld: string, path: string) returns (url: Option<string>)
    requires Plain(tld)
    ensures url == if Accepted(path) then Some("https://" + (("api.audible" + tld) + path)) else None
  {
    if !("/" <= path) || "//" <= path || '\\' in path {
      return None;
    }
    var unsafe := HasUnsafePathSegment(path);
    if unsafe {
      return None;
    }
    var host := "api.audible" + tld;
    PlainParts("api.audible", tld);
    OnlyTheHostIntended(host, path);
    var built := "https://" + (host + path);
    return if Intended(built, host) then Some(built) else None;
  }

  // ---------------------------------------------------------------- segment by segment

  ghost predicate NoDotSegment(s: string) {
    forall i | 0 <= i < |Split(s)| :: !Dots(Split(s)[i])
  }

  lemma {:induction false} SlashIs(s: string, i: nat, k: nat)
    requires i <= k <= |s| && (forall j | i <= j < k :: s[j] != '/') && (k < |s| ==> s[k] == '/')
    ensures SlashFrom(s, i) == k
    decreases k - i
  {
    if i < k { SlashIs(s, i + 1, k); }
  }

  /** Either no "/" at all, or a first segment, a "/" and the rest. */
  lemma SplitFirst(s: string)
    ensures var k := SlashFrom(s, 0);
            if k == |s| then Split(s) == [s] && NoSlash(s)
            else s == s[..k] + "/" + s[k + 1..] && Split(s) == [s[..k]] + Split(s[k + 1..]) && NoSlash(s[..k])
  {
    hide Split, SlashFrom;
    SplitIs(s);
    var k := SlashFrom(s, 0);
    if k < |s| { CutAt(s, k); }
  }

  ghost predicate NoSlash(s: string) {
    forall j | 0 <= j < |s| :: s[j] != '/'
  }

  lemma CutAt(s: string, k: nat)
    requires k < |s| && s[k] == '/'
    ensures s == s[..k] + "/" + s[k + 1..]
  {
  }

  lemma SplitIs(s: string)
    ensures var k := SlashFrom(s, 0);
            if k == |s| then Split(s) == [s] else Split(s) == [s[..k]] + Split(s[k + 1..])
  {
    hide SlashFrom;
  }

  lemma NoDotFirst(s: string)
    ensures var k := SlashFrom(s, 0);
            NoDotSegment(s) <==> !Dots(s[..k]) && (k < |s| ==> NoDotSegment(s[k + 1..]))
  {
    SplitFirst(s);
    hide Split, SlashFrom, Dots;
    var k := SlashFrom(s, 0);
    if k == |s| {
      assert s[..k] == s && Split(s) == [s] && [s][0] == s;
      assert NoDotSegment(s) <==> !Dots(Split(s)[0]);
    } else {
      NoDotCons(s[..k], Split(s[k + 1..]));
    }
  }

  lemma NoDotCons(first: string, rest: seq<string>)
    ensures var all := [first] + rest;
            (forall i | 0 <= i < |all| :: !Dots(all[i])) <==> !Dots(first) && forall i | 0 <= i < |rest| :: !Dots(rest[i])
  {
    hide Dots;
    var all := [first] + rest;
    forall i | 0 <= i < |rest| ensures all[i + 1] == rest[i] { }
    assert all[0] == first;
  }

  /** One round on an absolute path, by its first segment. */
  function AfterRound(t: string, output: string): Buffers {
    var k := SlashFrom(t, 0);
    if !Dots(t[..k]) then Buffers(t[k..], output + "/" + t[..k])
    else Buffers(if k == |t| then "/" else t[k..], if t[..k] == "." then output else DropLast(output))
  }

  /** The prefixes rules B and C look for are a first segment of dots. */
  lemma DotPrefixes(t: string)
    ensures "/./" <= "/" + t || "/" + t == "/." ==> Dots(t[..SlashFrom(t, 0)])
    ensures "/../" <= "/" + t || "/" + t == "/.." ==> Dots(t[..SlashFrom(t, 0)])
  {
    var input := "/" + t;
    assert input[1..] == t;
    if "/./" <= input || input == "/." {
      assert input[1] == '.';
      SlashIs(t, 0, 1);
      assert t[..1] == ".";
    }
    if "/../" <= input || input == "/.." {
      assert input[1] == '.' && input[2] == '.';
      SlashIs(t, 0, 2);
      assert t[..2] == "..";
    }
  }

  /** Rules A and D are for relative input. */
  lemma AbsoluteRound(input: string, output: string)
    requires input != "" && input[0] == '/'
    ensures Round(Buffers(input, output)) ==
            if "/./" <= input then Buffers(input[2..], output)
            else if input == "/." then Buffers("/", output)
            else if "/../" <= input then Buffers(input[3..], DropLast(output))
            else if input == "/.." then Buffers("/", DropLast(output))
            else Buffers(input[SlashFrom(input, 1)..], output + input[..SlashFrom(input, 1)])
  {
    hide SlashFrom, DropLast;
  }

  lemma PlainRound(t: string, output: string)
    requires !Dots(t[..SlashFrom(t, 0)])
    ensures Round(Buffers("/" + t, output)) == AfterRound(t, output)
  {
    AbsoluteRound("/" + t, output);
    DotPrefixes(t);
    SlashShift(t, 0);
    hide Dots, SlashFrom, Round, DropLast;
    var input, k := "/" + t, SlashFrom(t, 0);
    assert Round(Buffers(input, output)) == Buffers(input[k + 1..], output + input[..k + 1]);
    ShiftedCut(t, output, k);
  }

  lemma ShiftedCut(t: string, output: string, k: nat)
    requires k <= |t|
    ensures ("/" + t)[k + 1..] == t[k..] && output + ("/" + t)[..k + 1] == output + "/" + t[..k]
  {
    assert ("/" + t)[..k + 1] == "/" + t[..k];
  }

  lemma DotRound(t: string, output: string)
    requires Dots(t[..SlashFrom(t, 0)])
    ensures Round(Buffers("/" + t, output)) == AfterRound(t, output)
  {
    AbsoluteRound("/" + t, output);
    hide SlashFrom, Round, DropLast;
    var input, k := "/" + t, SlashFrom(t, 0);
    assert input[1..] == t && input[k + 1..] == t[k..];
    assert t[..k][0] == t[0] && input[1] == '.';
    if t[..k] == "." {
      assert k == |t[..k]| == 1;
      if k == |t| { assert input == "/."; } else { assert input[2] == '/' && "/./" <= input; }
    } else {
      assert k == |t[..k]| == 2 && t[..k][1] == t[1] && input[2] == '.';
      if k == |t| { assert input == "/.."; } else { assert input[3] == '/' && "/../" <= input; }
    }
  }

  lemma OneRound(t: string, output: string)
    ensures RemoveDots("/" + t, output) == RemoveDots(AfterRound(t, output).input, AfterRound(t, output).output)
  {
    if Dots(t[..SlashFrom(t, 0)]) { DotRound(t, output); } else { PlainRound(t, output); }
    hide AfterRound, Round;
  }

  lemma {:induction false} SlashShift(t: string, i: nat)
    requires i <= |t|
    ensures SlashFrom("/" + t, i + 1) == SlashFrom(t, i) + 1
    decreases |t| - i
  {
    if i < |t| && t[i] != '/' {
      SlashShift(t, i + 1);
    }
  }

  /** Without dot segments the algorithm copies its input. */
  lemma {:induction false} CopiesWithoutDots(t: string, output: string)
    requires NoDotSegment(t)
    ensures RemoveDots("/" + t, output) == output + "/" + t
    decreases |t|
  {
    OneRound(t, output);
    NoDotFirst(t);
    NothingLeft(output + "/" + t);
    hide RemoveDots, SlashFrom, NoDotSegment, Dots;
    var k := SlashFrom(t, 0);
    if k == |t| {
      assert t[..k] == t && t[k..] == "";
    } else {
      var rest := t[k + 1..];
      CopiesWithoutDots(rest, output + "/" + t[..k]);
      assert t[k..] == "/" + rest;
      assert output + "/" + t[..k] + "/" + rest == output + "/" + t by { assert t == t[..k] + "/" + rest; }
    }
  }

  lemma NothingLeft(output: string)
    ensures RemoveDots("", output) == output
  {
  }

  lemma {:induction false} NeverLonger(t: string, output: string)
    ensures |RemoveDots("/" + t, output)| <= |output| + 1 + |t|
    decreases |t|
  {
    OneRound(t, output);
    var k := SlashFrom(t, 0);
    var next := if !Dots(t[..k]) then output + "/" + t[..k] else if t[..k] == "." then output else DropLast(output);
    if k < |t| {
      assert t[k..] == "/" + t[k + 1..];
      NeverLonger(t[k + 1..], next);
    } else if Dots(t[..k]) {
      NeverLonger("", next);
      assert "/" + "" == "/";
    } else {
      assert t[k..] == "";
    }
  }

  /** With one it loses characters. */
  lemma {:induction false} ShrinksWithDots(t: string, output: string)
    requires !NoDotSegment(t)
    ensures |RemoveDots("/" + t, output)| < |output| + 1 + |t|
    decreases |t|
  {
    OneRound(t, output);
    NoDotFirst(t);
    hide RemoveDots, SlashFrom, NoDotSegment;
    var k := SlashFrom(t, 0);
    if Dots(t[..k]) {
      var next := if t[..k] == "." then output else DropLast(output);
      if k < |t| {
        assert t[k..] == "/" + t[k + 1..];
        NeverLonger(t[k + 1..], next);
      } else {
        NeverLonger("", next);
        assert "/" + "" == "/";
      }
    } else {
      assert t[k..] == "/" + t[k + 1..];
      ShrinksWithDots(t[k + 1..], output + "/" + t[..k]);
    }
  }

  /** An absolute path is what dot-segment removal makes of it exactly when it has
      no dot segment. */
  lemma FixedIff(path: string)
    requires "/" <= path
    ensures RemoveDots(path, "") == path <==> NoDotSegment(path)
  {
    var t := path[1..];
    assert path == "/" + t;
    NoDotFirst(path);
    assert SlashFrom(path, 0) == 0 && path[..0] == "";
    if NoDotSegment(t) { CopiesWithoutDots(t, ""); } else { ShrinksWithDots(t, ""); }
  }

  // ---------------------------------------------------------------- encoded dots

  /** Decoding stays inside segments. */
  lemma {:induction false} DecodeConcat(a: string, b: string)
    ensures Decode(a + "/" + b) == Decode(a) + "/" + Decode(b)
    decreases |a|
  {
    var s := a + "/" + b;
    if a == "" {
      assert s[1..] == b;
    } else if EncodedDot(s) {
      assert s[|a|] == '/';
      assert EncodedDot(a);
      assert s[3..] == a[3..] + "/" + b;
      DecodeConcat(a[3..], b);
    } else {
      assert !EncodedDot(a);
      assert s[1..] == a[1..] + "/" + b;
      DecodeConcat(a[1..], b);
    }
  }

  lemma {:induction false} DecodeAddsNoSlash(s: string)
    requires NoSlash(s)
    ensures NoSlash(Decode(s))
  {
    if s != "" {
      if EncodedDot(s) { DecodeAddsNoSlash(s[3..]); } else { DecodeAddsNoSlash(s[1..]); }
    }
  }

  lemma {:induction false} SplitOf(a: string, b: string)
    requires NoSlash(a)
    ensures Split(a + "/" + b) == [a] + Split(b)
    ensures Split(a) == [a]
  {
    var s := a + "/" + b;
    assert s[|a|] == '/' && s[..|a|] == a && s[|a| + 1..] == b;
    SlashIs(s, 0, |a|);
    SlashIs(a, 0, |a|);
  }

  function DecodeAll(segments: seq<string>): (r: seq<string>)
    ensures |r| == |segments| && forall i | 0 <= i < |r| :: r[i] == Decode(segments[i])
  {
    if segments == [] then [] else [Decode(segments[0])] + DecodeAll(segments[1..])
  }

  /** So it keeps the number of segments, decoding each. */
  lemma {:induction false} DecodeSegments(s: string)
    ensures Split(Decode(s)) == DecodeAll(Split(s))
    decreases |s|
  {
    SplitFirst(s);
    hide Split, Decode, SlashFrom;
    var k := SlashFrom(s, 0);
    if k == |s| {
      DecodeAddsNoSlash(s);
      SplitOf(Decode(s), "");
      assert [s][1..] == [];
    } else {
      var a, b := s[..k], s[k + 1..];
      DecodeConcat(a, b);
      DecodeAddsNoSlash(a);
      SplitOf(Decode(a), Decode(b));
      DecodeSegments(b);
      assert ([a] + Split(b))[1..] == Split(b);
    }
  }

  lemma {:induction false} LowerDecode(s: string)
    ensures Lower(Decode(s)) == Decode(Lower(s))
  {
    if s != "" {
      assert EncodedDot(Lower(s)) <==> EncodedDot(s) by { LowerAt(s); }
      if EncodedDot(s) {
        LowerDrop(s, 3);
        LowerDecode(s[3..]);
        assert ("." + Decode(s[3..]))[1..] == Decode(s[3..]);
      } else {
        LowerDecode(s[1..]);
        assert ([s[0]] + Decode(s[1..]))[1..] == Decode(s[1..]);
        assert Lower(s)[1..] == Lower(s[1..]);
      }
    }
  }

  lemma LowerAt(s: string)
    ensures forall i | 0 <= i < 3 && i < |s| :: Lower(s)[i] == LowerChar(s[i])
  {
    if |s| > 1 {
      assert s[1..][1..] == s[2..];
      assert Lower(s)[1] == Lower(s[1..])[0];
      if |s| > 2 { assert Lower(s)[2] == Lower(s[1..])[1] == Lower(s[2..])[0]; }
    }
  }

  lemma {:induction false} LowerDrop(s: string, n: nat)
    requires n <= |s|
    ensures Lower(s)[n..] == Lower(s[n..])
  {
    if n > 0 {
      LowerDrop(s[1..], n - 1);
      assert Lower(s)[n..] == Lower(s[1..])[n - 1..] && s[1..][n - 1..] == s[n..];
    }
  }

  lemma LowerDots(s: string)
    ensures Dots(Lower(s)) <==> Dots(s)
  {
    LowerAt(s);
    if Dots(s) || Dots(Lower(s)) {
      assert |s| == 1 || |s| == 2;
      assert s == if |s| == 1 then [s[0]] else [s[0], s[1]];
      assert Lower(s) == if |s| == 1 then [Lower(s)[0]] else [Lower(s)[0], Lower(s)[1]];
    }
  }

  // ---------------------------------------------------------------- the theorems

  /** The dot tests of the check, in any case, are exactly dot segments, plain or
      once %2e is decoded. */
  lemma DotTestsExact(segment: string)
    ensures Dots(Lower(segment)) <==> Dots(segment)
    ensures Dots(Decode(Lower(segment))) <==> Dots(Decode(segment))
  {
    LowerDots(segment);
    LowerDots(Decode(segment));
    LowerDecode(segment);
  }

  /** A path passes the dot tests exactly when dot-segment removal leaves it alone,
      as it stands and after decoding; either way it keeps its segments. */
  lemma DotTestsMeanFixed(path: string)
    requires "/" <= path
    ensures (forall i | 0 <= i < |Split(path)| :: !Dots(Lower(Split(path)[i])) && !Dots(Decode(Lower(Split(path)[i])))) <==>
            (RemoveDots(path, "") == path && RemoveDots(Decode(path), "") == Decode(path))
    ensures |Split(Decode(path))| == |Split(path)|
  {
    FixedIff(path);
    DecodeSegments(path);
    assert Decode(path)[0] == '/';
    FixedIff(Decode(path));
    var segments, decoded := Split(path), Split(Decode(path));
    forall i | 0 <= i < |segments|
      ensures Dots(Lower(segments[i])) <==> Dots(segments[i])
      ensures Dots(Decode(Lower(segments[i]))) <==> Dots(decoded[i])
    {
      DotTestsExact(segments[i]);
    }
  }

  /** What is accepted reaches the endpoint it names: removing dot segments changes
      nothing, so whatever prefix the path has, it keeps. */
  lemma AcceptedIsFixed(path: string)
    requires Accepted(path)
    ensures RemoveDots(path, "") == path && RemoveDots(Decode(path), "") == Decode(path)
    ensures |Split(Decode(path))| == |Split(path)|
  {
    forall i | 0 <= i < |Split(path)|
      ensures !Dots(Lower(Split(path)[i])) && !Dots(Decode(Lower(Split(path)[i])))
    {
      assert !UnsafeSegment(Split(path)[i]);
    }
    DotTestsMeanFixed(path);
  }

  // ---------------------------------------------------------------- exactly what is accepted

  /** A "/" or a "\" percent-encoded at this place, in either case. */
  predicate SeparatorAt(s: string, i: int) {
    && 0 <= i && i + 3 <= |s| && s[i] == '%'
    && ((s[i + 1] == '2' && (s[i + 2] == 'f' || s[i + 2] == 'F')) || (s[i + 1] == '5' && (s[i + 2] == 'c' || s[i + 2] == 'C')))
  }

  ghost predicate HidesSeparator(s: string) {
    exists i :: SeparatorAt(s, i)
  }

  lemma {:induction false} ContainsIff(s: string, part: string)
    ensures Contains(s, part) <==> exists i :: IsAt(s, part, i)
  {
    if part <= s {
      assert IsAt(s, part, 0);
    } else if s != "" {
      ContainsIff(s[1..], part);
      if i :| IsAt(s[1..], part, i) {
        assert s[1..][i..i + |part|] == s[i + 1..i + 1 + |part|];
        assert IsAt(s, part, i + 1);
      }
      if i :| IsAt(s, part, i) {
        assert i == 0 ==> part <= s;
        assert s[1..][i - 1..i - 1 + |part|] == s[i..i + |part|];
        assert IsAt(s[1..], part, i - 1);
      }
    }
  }

  ghost predicate IsAt(s: string, part: string, i: int) {
    0 <= i && i + |part| <= |s| && s[i..i + |part|] == part
  }

  lemma {:induction false} LowerIndex(s: string, i: nat)
    requires i < |s|
    ensures Lower(s)[i] == LowerChar(s[i])
  {
    if i > 0 {
      LowerIndex(s[1..], i - 1);
    }
  }

  /** The two tests on a lowered segment find exactly the encoded separators. */
  lemma SeparatorTestsExact(segment: string)
    ensures Contains(Lower(segment), "%2f") || Contains(Lower(segment), "%5c") <==> HidesSeparator(segment)
  {
    hide Contains, Lower, LowerChar;
    var lowered := Lower(segment);
    ContainsIff(lowered, "%2f");
    ContainsIff(lowered, "%5c");
    forall i ensures SeparatorAt(segment, i) <==> IsAt(lowered, "%2f", i) || IsAt(lowered, "%5c", i) {
      SeparatorLowered(segment, i);
    }
  }

  lemma SeparatorLowered(segment: string, i: int)
    ensures SeparatorAt(segment, i) <==> IsAt(Lower(segment), "%2f", i) || IsAt(Lower(segment), "%5c", i)
  {
    hide Lower;
    var lowered := Lower(segment);
    if 0 <= i && i + 3 <= |segment| {
      LowerIndex(segment, i);
      LowerIndex(segment, i + 1);
      LowerIndex(segment, i + 2);
      var three := lowered[i..i + 3];
      assert three == [lowered[i], lowered[i + 1], lowered[i + 2]];
      assert "%2f" == ['%', '2', 'f'] && "%5c" == ['%', '5', 'c'];
    }
  }

  /** An encoded separator lies within a segment. */
  lemma SeparatorConcat(a: string, b: string)
    ensures HidesSeparator(a + "/" + b) <==> HidesSeparator(a) || HidesSeparator(b)
  {
    var s := a + "/" + b;
    assert s[|a|] == '/';
    if i :| SeparatorAt(s, i) {
      assert i + 3 <= |a| || i > |a|;
      if i + 3 <= |a| {
        assert SeparatorAt(a, i);
      } else {
        assert SeparatorAt(b, i - |a| - 1);
      }
    }
    if i :| SeparatorAt(a, i) { assert SeparatorAt(s, i); }
    if i :| SeparatorAt(b, i) { assert SeparatorAt(s, i + |a| + 1); }
  }

  lemma {:induction false} SeparatorInSegment(path: string)
    ensures HidesSeparator(path) <==> exists k :: 0 <= k < |Split(path)| && HidesSeparator(Split(path)[k])
    decreases |path|
  {
    SplitFirst(path);
    hide Split, SlashFrom, HidesSeparator;
    var k := SlashFrom(path, 0);
    if k == |path| {
      assert Split(path)[0] == path;
    } else {
      var a, b := path[..k], path[k + 1..];
      SeparatorConcat(a, b);
      SeparatorInSegment(b);
      var all := Split(path);
      assert all == [a] + Split(b);
      if HidesSeparator(a) { assert HidesSeparator(all[0]); }
      if j :| 0 <= j < |Split(b)| && HidesSeparator(Split(b)[j]) { assert all[j + 1] == Split(b)[j]; }
      if j :| 0 <= j < |all| && HidesSeparator(all[j]) { assert j > 0 ==> all[j] == Split(b)[j - 1]; }
    }
  }

  /** A path is accepted exactly when it begins with one "/", holds no backslash, no
      query and no fragment, hides no separator, and dot-segment removal leaves it
      alone as it stands and decoded. */
  lemma AcceptedIff(path: string)
    ensures Accepted(path) <==>
              && "/" <= path && (|path| > 1 ==> path[1] != '/')
              && (forall c | c in path :: c !in {'\\', '?', '#'})
              && !HidesSeparator(path)
              && RemoveDots(path, "") == path && RemoveDots(Decode(path), "") == Decode(path)
  {
    hide RemoveDots, Decode, Split, Lower, Contains, HidesSeparator;
    assert "//" <= path <==> "/" <= path && |path| > 1 && path[1] == '/';
    SeparatorInSegment(path);
    forall i | 0 <= i < |Split(path)|
      ensures UnsafeSegment(Split(path)[i]) <==>
              Dots(Lower(Split(path)[i])) || Dots(Decode(Lower(Split(path)[i]))) || HidesSeparator(Split(path)[i])
    {
      SeparatorTestsExact(Split(path)[i]);
    }
    if "/" <= path {
      DotTestsMeanFixed(path);
    }
  }
}
