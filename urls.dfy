/**
 * `url_join` of psbs/utils.py: every part loses its trailing slashes, is cut
 * at each `/`, and all the pieces are joined again with `/`.
 */
module Urls {
  import opened Text

  /** Every part with its trailing `/` removed: `part.rstrip("/")`. */
  function Trimmed(parts: seq<string>): (r: seq<string>)
    ensures |r| == |parts|
    ensures forall i :: 0 <= i < |parts| ==> r[i] == RStripChar(parts[i], '/')
  {
    seq(|parts|, i requires 0 <= i < |parts| => RStripChar(parts[i], '/'))
  }

  /** The list the loop builds: the `/`-pieces of every trimmed part, in order. */
  function Pieces(parts: seq<string>): seq<string> {
    if parts == [] then []
    else Pieces(parts[..|parts| - 1]) + Split(RStripChar(parts[|parts| - 1], '/'), '/')
  }

  /** `url_join(*parts)`. */
  method UrlJoin(parts: seq<string>) returns (url: string)
    ensures url == Join(Trimmed(parts), "/")
  {
    var output: seq<string> := [];
    for i := 0 to |parts|
      invariant output == Pieces(parts[..i])
    {
      assert parts[..i + 1][..i] == parts[..i];
      output := output + Split(RStripChar(parts[i], '/'), '/');
    }
    assert parts[..|parts|] == parts;
    url := Join(output, "/");
    PiecesJoin(parts);
  }

  /**
   * Cutting at `/` and joining with `/` gives the part back, so the pieces
   * joined are the trimmed parts joined with exactly one `/` between them.
   */
  lemma {:induction false} PiecesJoin(parts: seq<string>)
    ensures Join(Pieces(parts), "/") == Join(Trimmed(parts), "/")
    ensures parts != [] ==> |Pieces(parts)| >= 1
  {
    if parts != [] {
      var init := parts[..|parts| - 1];
      var last := RStripChar(parts[|parts| - 1], '/');
      JoinSplit(last, '/');
      assert Trimmed(parts) == Trimmed(init) + [last];
      if init != [] {
        PiecesJoin(init);
        JoinAppend(Pieces(init), Split(last, '/'), "/");
        JoinAppend(Trimmed(init), [last], "/");
      } else {
        assert Pieces(parts) == Split(last, '/');
      }
    }
  }

  /** One part: the result is that part with its trailing slashes removed. */
  lemma SinglePart(part: string)
    ensures Join(Trimmed([part]), "/") == RStripChar(part, '/')
    ensures forall i :: |Join(Trimmed([part]), "/")| <= i < |part| ==> part[i] == '/'
    ensures part == Join(Trimmed([part]), "/") + part[|Join(Trimmed([part]), "/")|..]
  {
    RStripCharShape(part, '/');
  }

  /** Two parts neither of which ends with `/` are joined by a single `/`. */
  lemma TwoParts(a: string, b: string)
    requires a == [] || a[|a| - 1] != '/'
    requires b == [] || b[|b| - 1] != '/'
    ensures Join(Trimmed([a, b]), "/") == a + "/" + b
  {
    assert Trimmed([a, b]) == [a, b];
  }

  /** Trailing slashes on a part make no difference to the joined URL. */
  lemma {:induction false} TrailingSlashesIgnored(parts: seq<string>, i: nat, k: nat)
    requires i < |parts|
    ensures Join(Trimmed(parts[i := parts[i] + Repeat('/', k)]), "/") == Join(Trimmed(parts), "/")
  {
    TrimRepeat(parts[i], k);
    assert Trimmed(parts[i := parts[i] + Repeat('/', k)]) == Trimmed(parts);
  }

  lemma {:induction false} TrimRepeat(s: string, k: nat)
    ensures RStripChar(s + Repeat('/', k), '/') == RStripChar(s, '/')
  {
    if k > 0 {
      var t := s + Repeat('/', k);
      assert t[|t| - 1] == Repeat('/', k)[k - 1] == '/';
      assert t[..|t| - 1] == s + Repeat('/', k - 1) by {
        assert Repeat('/', k)[..k - 1] == Repeat('/', k - 1);
      }
      TrimRepeat(s, k - 1);
    } else {
      assert s + Repeat('/', k) == s;
    }
  }
}
