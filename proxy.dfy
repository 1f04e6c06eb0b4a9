/**
 * The URL reconstruction of the Gotham server's `/v0/fetch/:url` route: the
 * router hands over the path segments after `/v0/fetch/` with empty
 * segments dissolved, and the handler puts back the empty segment of
 * `scheme://` before joining the segments with `/`.
 */
module Proxy {

  /** `proxied_uri_segs[0].ends_with(":")`. */
  predicate EndsWithColon(s: string) {
    |s| > 0 && s[|s| - 1] == ':'
  }

  /** The repair condition of `handle_fetch`. */
  predicate NeedsRepair(segs: seq<string>) {
    |segs| >= 2 && EndsWithColon(segs[0]) && segs[1] != ""
  }

  /** The segments after `proxied_uri_segs.insert(1, String::new())` when the condition holds. */
  function Repair(segs: seq<string>): seq<string> {
    if NeedsRepair(segs) then segs[..1] + [""] + segs[1..] else segs
  }

  /** `segs.join("/")`. */
  function Join(segs: seq<string>): string {
    if |segs| == 0 then ""
    else if |segs| == 1 then segs[0]
    else segs[0] + "/" + Join(segs[1..])
  }

  /** Split a string at every `/`: the inverse of `Join` on slash-free segments. */
  function Split(s: string): (r: seq<string>)
    ensures |r| > 0
    decreases |s|
  {
    if '/' !in s then [s]
    else
      var i := FirstSlash(s);
      [s[..i]] + Split(s[i + 1..])
  }

  /** The index of the first `/` in `s`. */
  function FirstSlash(s: string): (i: nat)
    requires '/' in s
    ensures i < |s| && s[i] == '/' && '/' !in s[..i]
  {
    if s[0] == '/' then 0
    else
      assert '/' in s[1..] by {
        var k :| 0 <= k < |s| && s[k] == '/';
        assert s[1..][k - 1] == '/';
      }
      var j := FirstSlash(s[1..]);
      assert s[..j + 1] == [s[0]] + s[1..][..j];
      j + 1
  }

  /**
   * The handler adds exactly one segment, the empty one at index 1, when
   * the condition holds, and otherwise leaves the segments alone; the
   * original segments are kept in order either way.
   */
  lemma RepairInserts(segs: seq<string>)
    ensures NeedsRepair(segs) ==>
              && |Repair(segs)| == |segs| + 1 && Repair(segs)[1] == ""
              && Repair(segs)[..1] + Repair(segs)[2..] == segs
    ensures !NeedsRepair(segs) ==> Repair(segs) == segs
  {
    if NeedsRepair(segs) {
      assert Repair(segs)[2..] == segs[1..];
    }
  }

  /** A second repair changes nothing. */
  lemma RepairIdempotent(segs: seq<string>)
    ensures Repair(Repair(segs)) == Repair(segs)
  {
    if NeedsRepair(segs) {
      assert Repair(segs)[1] == "";
    }
  }

  /** One `/` separates consecutive segments. */
  lemma {:induction false} JoinSnoc(segs: seq<string>, x: string)
    ensures Join(segs + [x]) == if |segs| == 0 then x else Join(segs) + "/" + x
    decreases |segs|
  {
    if |segs| > 1 {
      var s0, rest := segs[0], segs[1..];
      assert (segs + [x])[0] == s0;
      assert (segs + [x])[1..] == rest + [x];
      JoinSnoc(rest, x);
      assert Join(segs + [x]) == s0 + "/" + (Join(rest) + "/" + x);
      AppendAssoc(s0 + "/", Join(rest), "/" + x);
    } else if |segs| == 1 {
      assert (segs + [x])[1..] == [x];
    } else {
      assert segs + [x] == [x];
    }
  }

  lemma AppendAssoc(a: string, b: string, c: string)
    ensures a + (b + c) == (a + b) + c
  {
  }

  /** Splitting the join of non-empty, slash-free segments gives them back. */
  lemma {:induction false} SplitJoin(segs: seq<string>)
    requires |segs| > 0
    requires forall k :: 0 <= k < |segs| ==> '/' !in segs[k]
    ensures Split(Join(segs)) == segs
    decreases |segs|
  {
    if |segs| > 1 {
      var x := segs[0];
      var rest := Join(segs[1..]);
      var s := x + "/" + rest;
      assert s[|x|] == '/';
      assert s[..|x|] == x;
      var i := FirstSlash(s);
      assert i == |x|;
      assert s[i + 1..] == rest;
      SplitJoin(segs[1..]);
      assert segs == [x] + segs[1..];
    }
  }

  /**
   * `handle_fetch` up to the outgoing request: repair the segments in
   * place, then join them into the proxied URI.
   */
  method ProxiedUri(segs0: seq<string>) returns (uri: string)
    ensures uri == Join(Repair(segs0))
  {
    var segs := segs0;
    if |segs| >= 2 && EndsWithColon(segs[0]) && segs[1] != "" {
      segs := segs[..1] + [""] + segs[1..];
    }
    uri := Join(segs);
  }

  /** The documented example: `http://aaa/bbb` arrives as three segments and is rebuilt. */
  lemma FetchExample()
    ensures Join(Repair(["http:", "aaa", "bbb"])) == "http://aaa/bbb"
    ensures Split("http://aaa/bbb") == Repair(["http:", "aaa", "bbb"])
  {
    var segs := ["http:", "", "aaa", "bbb"];
    assert Repair(["http:", "aaa", "bbb"]) == segs;
    assert Join(segs) == "http://aaa/bbb" by {
      assert segs[1..][1..][1..] == ["bbb"];
      assert segs[1..][1..] == ["aaa", "bbb"];
    }
    SplitJoin(segs);
  }
}
