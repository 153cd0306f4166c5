/** Folder keys and job names (internal/authz/folder.go). */
module Folders {
  import opened Common

  /** unicode.IsSpace. */
  predicate IsSpace(c: char) {
    var n := c as int;
    || 9 <= n <= 13 || n == 32 || n == 0x85 || n == 0xA0 || n == 0x1680
    || 0x2000 <= n <= 0x200A || n == 0x2028 || n == 0x2029 || n == 0x202F || n == 0x205F || n == 0x3000
  }

  predicate Plain(s: string) {
    forall i :: 0 <= i < |s| ==> !IsSpace(s[i]) && s[i] != '*' && s[i] != '?' && s[i] != '['
  }

  function TrimLeft(s: string): string {
    if s != "" && s[0] == '/' then TrimLeft(s[1..]) else s
  }

  function TrimRight(s: string): string {
    if s != "" && s[|s| - 1] == '/' then TrimRight(s[..|s| - 1]) else s
  }

  /** The segments between slashes, at least one. */
  function Segments(s: string): seq<string> {
    if s == "" then [""]
    else
      var front, c := Segments(s[..|s| - 1]), s[|s| - 1];
      if c == '/' then front + [""]
      else if front == [] then [[c]]
      else front[|front| - 1 := front[|front| - 1] + [c]]
  }

  predicate ProperSegments(s: string) {
    forall i :: 0 <= i < |Segments(s)| ==> Segments(s)[i] != "" && Segments(s)[i] != "." && Segments(s)[i] != ".."
  }

  function NormalizeFolder(key: string): Result<string> {
    if !Plain(key) then Err("invalid folder")
    else
      var trimmed := TrimRight(TrimLeft(key));
      if ProperSegments(trimmed) then Ok(trimmed) else Err("invalid folder")
  }

  /** A folder a normalised key can be: normalising leaves it alone, and it is never "". */
  lemma NormalizeIsIdempotent(key: string)
    requires NormalizeFolder(key).Ok?
    ensures NormalizeFolder(NormalizeFolder(key).value) == NormalizeFolder(key)
    ensures NormalizeFolder(key).value != ""
  {
    var left := TrimLeft(key);
    var f := TrimRight(left);
    TrimLeftPlain(key);
    TrimRightPlain(left);
    TrimLeftStarts(key);
    TrimRightEnds(left);
    assert Segments("") == [""] && Segments("")[0] == "";
    assert TrimLeft(f) == f && TrimRight(f) == f;
  }

  lemma {:induction false} TrimLeftPlain(s: string)
    requires Plain(s)
    ensures Plain(TrimLeft(s))
  {
    if s != "" && s[0] == '/' {
      TrimLeftPlain(s[1..]);
    }
  }

  lemma {:induction false} TrimRightPlain(s: string)
    requires Plain(s)
    ensures Plain(TrimRight(s))
  {
    if s != "" && s[|s| - 1] == '/' {
      TrimRightPlain(s[..|s| - 1]);
    }
  }

  lemma {:induction false} TrimLeftStarts(s: string)
    ensures TrimLeft(s) == "" || TrimLeft(s)[0] != '/'
  {
    if s != "" && s[0] == '/' {
      TrimLeftStarts(s[1..]);
    }
  }

  lemma {:induction false} TrimRightEnds(s: string)
    ensures TrimRight(s) <= s
    ensures TrimRight(s) == "" || TrimRight(s)[|TrimRight(s)| - 1] != '/'
  {
    if s != "" && s[|s| - 1] == '/' {
      TrimRightEnds(s[..|s| - 1]);
    }
  }

  /** folder is a proper ancestor folder of job. */
  predicate Covers(folder: string, job: string) {
    folder + "/" <= job
  }

  /** Ancestors: exactly the non-empty folders that cover the job, outermost first. */
  method Ancestors(job: string) returns (out: seq<string>)
    ensures forall f :: f in out <==> f != "" && Covers(f, job)
    ensures forall i, j :: 0 <= i < j < |out| ==> out[i] < out[j]
  {
    out := [];
    for i := 0 to |job|
      invariant forall f :: f in out <==> f != "" && |f| < i && Covers(f, job)
      invariant forall k :: 0 <= k < |out| ==> |out[k]| < i && out[k] <= job
      invariant forall a, b :: 0 <= a < b < |out| ==> out[a] < out[b]
    {
      AncestorAt(job, i);
      if job[i] == '/' && i > 0 {
        forall k | 0 <= k < |out|
          ensures out[k] < job[..i]
        {
          assert out[k] == job[..|out[k]|];
        }
        out := out + [job[..i]];
      }
    }
  }

  lemma AncestorAt(job: string, i: nat)
    requires i < |job|
    ensures forall f :: |f| == i && Covers(f, job) <==> f == job[..i] && job[i] == '/'
  {
  }

  /** strings.Count(folder, "/"). */
  function Depth(folder: string): nat {
    if folder == "" then 0 else Depth(folder[..|folder| - 1]) + if folder[|folder| - 1] == '/' then 1 else 0
  }

  lemma {:induction false} DepthConcat(a: string, b: string)
    ensures Depth(a + b) == Depth(a) + Depth(b)
  {
    if b == "" {
      assert a + b == a;
    } else {
      DepthConcat(a, b[..|b| - 1]);
      assert (a + b)[..|a + b| - 1] == a + b[..|b| - 1];
    }
  }

  lemma InsideIsDeeper(f: string, g: string)
    requires Covers(f, g)
    ensures Depth(f) < Depth(g)
  {
    DepthConcat(f + "/", g[|f| + 1..]);
    DepthConcat(f, "/");
    assert g == f + "/" + g[|f| + 1..];
    assert "/"[..0] == "" && Depth("/") == 1;
  }

  /** Of two folders that cover the same job, the one that is no deeper contains the other. */
  lemma DeeperIsLonger(f: string, g: string, job: string)
    requires Covers(f, job) && Covers(g, job) && Depth(f) <= Depth(g)
    ensures f <= g
  {
    if |f| > |g| {
      assert f == job[..|f|] && g + "/" == job[..|g| + 1];
      InsideIsDeeper(g, f);
    } else {
      assert f == job[..|f|] && g == job[..|g|];
    }
  }

  // ---------------------------------------------------------------------------------------
  // What a folder is
  // ---------------------------------------------------------------------------------------

  function Slashes(n: nat): string {
    if n == 0 then "" else "/" + Slashes(n - 1)
  }

  function Joined(segments: seq<string>): string
    requires segments != []
  {
    if |segments| == 1 then segments[0] else Joined(segments[..|segments| - 1]) + "/" + segments[|segments| - 1]
  }

  /** Splitting at slashes: joining the segments gives the text again, and no segment holds a slash. */
  lemma {:induction false} SegmentsJoin(s: string)
    ensures Segments(s) != [] && Joined(Segments(s)) == s
    ensures forall i :: 0 <= i < |Segments(s)| ==> '/' !in Segments(s)[i]
  {
    if s != "" {
      var front, c := Segments(s[..|s| - 1]), s[|s| - 1];
      SegmentsJoin(s[..|s| - 1]);
      var last := |front| - 1;
      if c == '/' {
        assert (front + [""])[..|front|] == front;
        assert Joined(front + [""]) == Joined(front) + "/" + "";
      } else {
        var more := front[last := front[last] + [c]];
        assert more[..last] == front[..last];
        assert Joined(more) == Joined(front) + [c];
      }
    }
  }

  /** And that is the only list of segments that does. */
  lemma {:induction false} JoinedSegments(segments: seq<string>)
    requires segments != [] && forall i :: 0 <= i < |segments| ==> '/' !in segments[i]
    ensures Segments(Joined(segments)) == segments
    decreases |segments|
  {
    var front, last := segments[..|segments| - 1], segments[|segments| - 1];
    if |segments| == 1 {
      SegmentsOfTail([""], "", last);
      assert "" + last == last && [""][0 := "" + last] == segments;
    } else {
      JoinedSegments(front);
      var t := Joined(front) + "/";
      assert t[..|t| - 1] == Joined(front);
      SegmentsOfTail(front + [""], t, last);
      assert "" + last == last && segments == front + [last];
      assert (front + [""])[|front| := last] == front + [last];
    }
  }

  lemma {:induction false} SegmentsOfTail(front: seq<string>, t: string, tail: string)
    requires Segments(t) == front && front != [] && '/' !in tail
    ensures Segments(t + tail) == front[|front| - 1 := front[|front| - 1] + tail]
  {
    var last := |front| - 1;
    if tail == "" {
      assert t + tail == t && front[last] + tail == front[last];
    } else {
      var init, c := tail[..|tail| - 1], tail[|tail| - 1];
      SegmentsOfTail(front, t, init);
      assert c in tail && (t + tail)[..|t + tail| - 1] == t + init && (t + tail)[|t + tail| - 1] == c;
      var before := front[last := front[last] + init];
      assert Segments(t + tail) == before[last := before[last] + [c]];
      assert before[last] + [c] == front[last] + tail;
    }
  }

  /** A folder: one or more segments, none of them empty, "." or "..", joined by slashes. */
  ghost predicate IsFolder(f: string) {
    exists segments: seq<string> :: segments != [] && AllProper(segments) && f == Joined(segments)
  }

  ghost predicate AllProper(segments: seq<string>) {
    forall i :: 0 <= i < |segments| ==>
      segments[i] != "" && segments[i] != "." && segments[i] != ".." && '/' !in segments[i]
  }

  lemma ProperMeansFolder(f: string)
    ensures ProperSegments(f) <==> IsFolder(f)
  {
    SegmentsJoin(f);
    if ProperSegments(f) {
      assert AllProper(Segments(f));
    }
    if segments: seq<string> :| segments != [] && AllProper(segments) && f == Joined(segments) {
      JoinedSegments(segments);
    }
  }

  lemma {:induction false} TrimLeftTakes(s: string) returns (n: nat)
    ensures s == Slashes(n) + TrimLeft(s)
  {
    if s != "" && s[0] == '/' {
      var k := TrimLeftTakes(s[1..]);
      n := k + 1;
      assert s == "/" + s[1..];
    } else {
      n := 0;
    }
  }

  lemma {:induction false} TrimRightTakes(s: string) returns (n: nat)
    ensures s == TrimRight(s) + Slashes(n)
  {
    if s != "" && s[|s| - 1] == '/' {
      var k := TrimRightTakes(s[..|s| - 1]);
      n := k + 1;
      SlashAtEnd(k);
      assert s == s[..|s| - 1] + "/";
    } else {
      n := 0;
    }
  }

  lemma {:induction false} SlashAtEnd(n: nat)
    ensures Slashes(n + 1) == Slashes(n) + "/"
  {
    if n > 0 {
      SlashAtEnd(n - 1);
    }
  }

  lemma {:induction false} TrimLeftStops(n: nat, s: string)
    requires s != "" && s[0] != '/'
    ensures TrimLeft(Slashes(n) + s) == s
  {
    if n > 0 {
      assert (Slashes(n) + s)[1..] == Slashes(n - 1) + s;
      TrimLeftStops(n - 1, s);
    } else {
      assert Slashes(n) + s == s;
    }
  }

  lemma {:induction false} TrimRightStops(s: string, n: nat)
    requires s != "" && s[|s| - 1] != '/'
    ensures TrimRight(s + Slashes(n)) == s
  {
    if n > 0 {
      SlashAtEnd(n - 1);
      assert (s + Slashes(n))[..|s + Slashes(n)| - 1] == s + Slashes(n - 1);
      TrimRightStops(s, n - 1);
    } else {
      assert s + Slashes(n) == s;
    }
  }

  lemma {:induction false} FolderEnds(segments: seq<string>)
    requires segments != [] && AllProper(segments)
    ensures var f := Joined(segments); f != "" && f[0] != '/' && f[|f| - 1] != '/'
  {
    if |segments| > 1 {
      FolderEnds(segments[..|segments| - 1]);
    } else {
      assert segments[0][0] in segments[0];
    }
    var last := segments[|segments| - 1];
    assert last[|last| - 1] in last;
  }

  /** A key is accepted exactly if it holds no white space and no "*", "?" or "[" and is a folder with
      any number of slashes around it; and that folder is the result. */
  lemma NormalizeExact(key: string, f: string)
    ensures NormalizeFolder(key) == Ok(f) <==>
            && (forall i :: 0 <= i < |key| ==> !IsSpace(key[i]) && key[i] !in "*?[")
            && IsFolder(f) && exists a: nat, b: nat :: key == Slashes(a) + f + Slashes(b)
  {
    assert Plain(key) <==> forall i :: 0 <= i < |key| ==> !IsSpace(key[i]) && key[i] !in "*?[";
    ProperMeansFolder(f);
    if NormalizeFolder(key) == Ok(f) {
      var a := TrimLeftTakes(key);
      var b := TrimRightTakes(TrimLeft(key));
      assert key == Slashes(a) + f + Slashes(b);
    }
    if a: nat, b: nat :| IsFolder(f) && key == Slashes(a) + f + Slashes(b) {
      TrimmedToFolder(a, f, b);
    }
  }

  lemma TrimmedToFolder(a: nat, f: string, b: nat)
    requires IsFolder(f)
    ensures TrimRight(TrimLeft(Slashes(a) + f + Slashes(b))) == f
  {
    var segments: seq<string> :| segments != [] && AllProper(segments) && f == Joined(segments);
    FolderEnds(segments);
    assert Slashes(a) + f + Slashes(b) == Slashes(a) + (f + Slashes(b));
    TrimLeftStops(a, f + Slashes(b));
    TrimRightStops(f, b);
  }
}
