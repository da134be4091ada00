/**
 * `PSParser.redact_comments` (psbs/psparser.py): one left-to-right pass that
 * replaces text inside parenthesised comments by a placeholder, keeps every
 * newline, and leaves the text after a "message " keyword alone until the
 * end of its line.
 */
module Redact {
  import opened Text

  /** The scan's variables after a prefix of the input: comment depth, message flag, emitted elements. */
  datatype Scan = Scan(depth: nat, inMessage: bool, output: seq<string>)

  /** The message test: more than eight elements emitted, the last eight reading "message " in lower case. */
  predicate OpensMessage(output: seq<string>) {
    |output| > 8 && Lower(Concat(output[|output| - 8..])) == "message "
  }

  /** One iteration of the loop body for character `c`. */
  function Step(s: Scan, c: char, placeholder: string): Scan {
    var inMessage := if c == '\n' then false else s.inMessage || OpensMessage(s.output);
    var depth := if c == '(' && !inMessage then s.depth + 1 else s.depth;
    var element := if depth > 0 && c != '\n' && !inMessage then placeholder else [c];
    var depth' := if c == ')' && !inMessage then (if depth > 0 then depth - 1 else 0) else depth;
    Scan(depth', inMessage, s.output + [element])
  }

  /** The state of the scan once it has consumed all of `input`. */
  function ScanOf(input: string, placeholder: string): (s: Scan)
    ensures |s.output| == |input|
  {
    if input == [] then Scan(0, false, [])
    else Step(ScanOf(input[..|input| - 1], placeholder), input[|input| - 1], placeholder)
  }

  /** The list of emitted elements, one per input character. */
  function Elements(input: string, placeholder: string): (es: seq<string>)
    ensures |es| == |input|
  {
    ScanOf(input, placeholder).output
  }

  method RedactComments(input: string, placeholder: string) returns (r: string)
    ensures r == Concat(Elements(input, placeholder))
  {
    var depth: nat := 0;
    var output: seq<string> := [];
    var inMessage := false;
    for i := 0 to |input|
      invariant Scan(depth, inMessage, output) == ScanOf(input[..i], placeholder)
    {
      var c := input[i];
      ghost var before := Scan(depth, inMessage, output);
      if |output| > 8 && Lower(Concat(output[|output| - 8..])) == "message " {
        inMessage := true;
      }
      if c == '\n' {
        inMessage := false;
      }
      if c == '(' && !inMessage {
        depth := depth + 1;
      }
      if depth > 0 && c != '\n' && !inMessage {
        output := output + [placeholder];
      } else {
        output := output + [[c]];
      }
      if c == ')' && !inMessage {
        depth := if depth - 1 > 0 then depth - 1 else 0;
      }
      assert Scan(depth, inMessage, output) == Step(before, c, placeholder);
      ScanNext(input, placeholder, i);
    }
    assert input[..|input|] == input;
    r := Concat(output);
  }

  /** Consuming one more character is one more step of the scan. */
  lemma ScanNext(input: string, placeholder: string, i: nat)
    requires i < |input|
    ensures ScanOf(input[..i + 1], placeholder) == Step(ScanOf(input[..i], placeholder), input[i], placeholder)
  {
    assert input[..i + 1][..i] == input[..i];
  }

  /** The scan of a prefix is the prefix of the scan: element `i` depends only on `input[..i + 1]`. */
  lemma {:induction false} PrefixStable(input: string, placeholder: string, j: nat)
    requires j <= |input|
    ensures |Elements(input, placeholder)| == |input|
    ensures Elements(input[..j], placeholder) == Elements(input, placeholder)[..j]
    decreases |input|
  {
    if input != [] {
      var init := input[..|input| - 1];
      PrefixStable(init, placeholder, if j < |input| then j else |init|);
      if j < |input| {
        assert input[..j] == init[..j];
      } else {
        assert input[..j] == input;
      }
    }
  }

  /**
   * One element per input character: either the character itself or the
   * placeholder, and a newline is always emitted as itself.
   */
  lemma {:induction false} ElementShape(input: string, placeholder: string)
    ensures |Elements(input, placeholder)| == |input|
    ensures forall i :: 0 <= i < |input| ==>
      Elements(input, placeholder)[i] == [input[i]] || Elements(input, placeholder)[i] == placeholder
    ensures forall i :: 0 <= i < |input| && input[i] == '\n' ==> Elements(input, placeholder)[i] == "\n"
  {
    if input != [] {
      ElementShape(input[..|input| - 1], placeholder);
    }
  }

  /** With a one-character placeholder the redacted text has the input's length, offset for offset. */
  lemma LengthPreserved(input: string, placeholder: string)
    requires |placeholder| == 1
    ensures |Concat(Elements(input, placeholder))| == |input|
    ensures forall i :: 0 <= i < |input| ==>
      Concat(Elements(input, placeholder))[i] == input[i] || Concat(Elements(input, placeholder))[i] == placeholder[0]
  {
    var es := Elements(input, placeholder);
    ElementShape(input, placeholder);
    SingleCharConcat(es);
  }

  lemma {:induction false} SingleCharConcat(es: seq<string>)
    requires forall i :: 0 <= i < |es| ==> |es[i]| == 1
    ensures |Concat(es)| == |es|
    ensures forall i :: 0 <= i < |es| ==> Concat(es)[i] == es[i][0]
  {
    if es != [] {
      SingleCharConcat(es[..|es| - 1]);
    }
  }

  function Count(s: string, c: char): nat {
    if s == [] then 0 else Count(s[..|s| - 1], c) + (if s[|s| - 1] == c then 1 else 0)
  }

  lemma {:induction false} CountAppend(a: string, b: string, c: char)
    ensures Count(a + b, c) == Count(a, c) + Count(b, c)
    decreases |b|
  {
    if b == [] {
      assert a + b == a;
    } else {
      assert (a + b)[..|a + b| - 1] == a + b[..|b| - 1];
      CountAppend(a, b[..|b| - 1], c);
    }
  }

  /** A placeholder without a newline leaves the number of lines unchanged (including the empty placeholder). */
  lemma {:induction false} NewlinesPreserved(input: string, placeholder: string)
    requires '\n' !in placeholder
    ensures Count(Concat(Elements(input, placeholder)), '\n') == Count(input, '\n')
  {
    if input != [] {
      var init := input[..|input| - 1];
      var c := input[|input| - 1];
      NewlinesPreserved(init, placeholder);
      var es := Elements(input, placeholder);
      var e := es[|es| - 1];
      assert es[..|es| - 1] == Elements(init, placeholder);
      CountAppend(Concat(Elements(init, placeholder)), e, '\n');
      assert Count(e, '\n') == (if c == '\n' then 1 else 0) by {
        if e != [c] {
          assert e == placeholder && c != '\n';
          NoCount(placeholder, '\n');
        } else {
          assert [c][..0] == [];
        }
      }
    }
  }

  lemma {:induction false} NoCount(s: string, c: char)
    requires c !in s
    ensures Count(s, c) == 0
  {
    if s != [] {
      NoCount(s[..|s| - 1], c);
    }
  }

  /** Outside a comment, a character other than `(` is emitted as itself and opens none. */
  lemma OutsideStep(s: Scan, c: char, placeholder: string)
    requires s.depth == 0 && c != '('
    ensures Step(s, c, placeholder).depth == 0
    ensures Step(s, c, placeholder).output == s.output + [[c]]
  {
  }

  /** Text with no opening parenthesis comes out unchanged, whatever the placeholder. */
  lemma {:induction false} NoCommentUnchanged(input: string, placeholder: string)
    requires '(' !in input
    ensures ScanOf(input, placeholder).depth == 0
    ensures Concat(Elements(input, placeholder)) == input
  {
    NoCommentScan(input, placeholder);
    Singles(input);
  }

  /** Text without an opening parenthesis comes out unchanged. */
  lemma NoCommentText(input: string, placeholder: string)
    ensures '(' !in input ==> Concat(Elements(input, placeholder)) == input
  {
    if '(' !in input {
      NoCommentUnchanged(input, placeholder);
    }
  }

  /** Outside any comment every character is emitted as itself. */
  lemma {:induction false} NoCommentScan(input: string, placeholder: string)
    requires '(' !in input
    ensures ScanOf(input, placeholder).depth == 0
    ensures ScanOf(input, placeholder).output == Chars(input)
  {
    if input != [] {
      var v, c := input[..|input| - 1], input[|input| - 1];
      assert '(' !in v by {
        assert forall k :: 0 <= k < |v| ==> v[k] == input[k];
      }
      NoCommentScan(v, placeholder);
      assert v + [c] == input;
      NoCommentStep(v, c, placeholder);
    }
  }

  lemma NoCommentStep(v: string, c: char, placeholder: string)
    requires c != '('
    requires ScanOf(v, placeholder).depth == 0 && ScanOf(v, placeholder).output == Chars(v)
    ensures ScanOf(v + [c], placeholder).depth == 0
    ensures ScanOf(v + [c], placeholder).output == Chars(v + [c])
  {
    ScanAppend(v, c, placeholder);
    OutsideStep(ScanOf(v, placeholder), c, placeholder);
    assert Chars(v) + [[c]] == Chars(v + [c]);
  }

  /**
   * What happens to character `i`, in terms of the scan before it:
   * the message flag is set only by the "message " test and cleared by a
   * newline; inside a message characters pass through and parentheses do not
   * change the depth; outside one an opening parenthesis is itself redacted,
   * a closing one that ends a comment is redacted, and any character other
   * than `(` met at depth 0 passes through.
   */
  lemma CharacterRules(input: string, placeholder: string, i: nat)
    requires i < |input|
    ensures var before := ScanOf(input[..i], placeholder);
            var after := ScanOf(input[..i + 1], placeholder);
            var e := Elements(input, placeholder)[i];
            && (after.inMessage <==> input[i] != '\n' && (before.inMessage || OpensMessage(before.output)))
            && (after.inMessage ==> e == [input[i]] && after.depth == before.depth)
            && (!after.inMessage && input[i] == '(' ==> e == placeholder && after.depth == before.depth + 1)
            && (!after.inMessage && input[i] == ')' && before.depth > 0 ==> e == placeholder && after.depth == before.depth - 1)
            && (before.depth == 0 && input[i] != '(' ==> e == [input[i]] && after.depth == 0)
  {
    PrefixStable(input, placeholder, i + 1);
    var p := input[..i + 1];
    assert p[..|p| - 1] == input[..i];
    assert Elements(input, placeholder)[i] == Elements(p, placeholder)[i];
  }


  /** The scan of a longer input is one more step. */
  lemma ScanAppend(input: string, c: char, placeholder: string)
    ensures ScanOf(input + [c], placeholder) == Step(ScanOf(input, placeholder), c, placeholder)
  {
    assert (input + [c])[..|input|] == input;
  }

  /** A character other than a parenthesis or newline, outside comments and messages, passes through. */
  lemma PlainStep(input: string, c: char, out: seq<string>)
    requires ScanOf(input, "") == Scan(0, false, out)
    requires c != '(' && c != ')' && c != '\n'
    requires !OpensMessage(out)
    ensures ScanOf(input + [c], "") == Scan(0, false, out + [[c]])
  {
    ScanAppend(input, c, "");
  }

  /** Each character of `w` as a one-character string. */
  function Chars(w: string): (r: seq<string>)
    ensures |r| == |w| && forall k :: 0 <= k < |w| ==> r[k] == [w[k]]
  {
    seq(|w|, k requires 0 <= k < |w| => [w[k]])
  }

  /** One-character elements concatenate back to the text. */
  lemma {:induction false} Singles(w: string)
    ensures Concat(Chars(w)) == w
  {
    if w != [] {
      var v := w[..|w| - 1];
      Singles(v);
      assert Chars(w)[..|w| - 1] == Chars(v);
      assert v + [w[|w| - 1]] == w;
    }
  }

  /** Up to nine plain characters pass through: the message test needs more than eight elements before it. */
  lemma {:induction false} ShortPlain(w: string)
    requires |w| <= 9
    requires forall k :: 0 <= k < |w| ==> w[k] != '(' && w[k] != ')' && w[k] != '\n'
    ensures ScanOf(w, "") == Scan(0, false, Chars(w))
  {
    if w != [] {
      var v := w[..|w| - 1];
      ShortPlain(v);
      assert v + [w[|w| - 1]] == w;
      assert Chars(v) + [[w[|w| - 1]]] == Chars(w);
      PlainStep(v, w[|w| - 1], Chars(v));
    }
  }

  /** Nine elements reading "message" after an empty one do not open a message. */
  lemma NotYetMessage()
    ensures !OpensMessage(["", "", "m", "e", "s", "s", "a", "g", "e"])
  {
    var o9: seq<string> := ["", "", "m", "e", "s", "s", "a", "g", "e"];
    Singles("message");
    assert o9[1..] == [""] + Chars("message");
    ConcatAppend([""], Chars("message"));
  }

  /** `()` with the empty placeholder: two empty elements, the comment closed. */
  lemma EmptiedComment()
    ensures ScanOf("()", "") == Scan(0, false, ["", ""])
  {
    ScanAppend("", '(', "");
    assert "" + ['('] == "(";
    ScanAppend("(", ')', "");
    assert "(" + [')'] == "()";
  }

  /** An emptied comment followed by "message ": ten elements, no message open yet. */
  lemma MessageAfterComment()
    ensures ScanOf("()message ", "") == Scan(0, false, ["", "", "m", "e", "s", "s", "a", "g", "e", " "])
  {
    EmptiedComment();
    PlainStep("()", 'm', ["", ""]);
    assert "()" + ['m'] == "()m";
    PlainStep("()m", 'e', ["", "", "m"]);
    assert "()m" + ['e'] == "()me";
    PlainStep("()me", 's', ["", "", "m", "e"]);
    assert "()me" + ['s'] == "()mes";
    PlainStep("()mes", 's', ["", "", "m", "e", "s"]);
    assert "()mes" + ['s'] == "()mess";
    PlainStep("()mess", 'a', ["", "", "m", "e", "s", "s"]);
    assert "()mess" + ['a'] == "()messa";
    PlainStep("()messa", 'g', ["", "", "m", "e", "s", "s", "a"]);
    assert "()messa" + ['g'] == "()messag";
    PlainStep("()messag", 'e', ["", "", "m", "e", "s", "s", "a", "g"]);
    assert "()messag" + ['e'] == "()message";
    NotYetMessage();
    PlainStep("()message", ' ', ["", "", "m", "e", "s", "s", "a", "g", "e"]);
    assert "()message" + [' '] == "()message ";
  }

  /** The ten elements of `()message ` read "message " in their last eight. */
  lemma MessageOpened()
    ensures OpensMessage(["", "", "m", "e", "s", "s", "a", "g", "e", " "])
  {
    var o10: seq<string> := ["", "", "m", "e", "s", "s", "a", "g", "e", " "];
    Singles("message ");
    assert o10[2..] == Chars("message ");
    assert Lower("message ") == "message ";
  }

  /** After an emptied comment, "message " opens a message: the parenthesis and what follows pass through. */
  lemma FirstScan()
    ensures ScanOf("()message (a", "") == Scan(0, true, ["", "", "m", "e", "s", "s", "a", "g", "e", " ", "(", "a"])
  {
    var o10: seq<string> := ["", "", "m", "e", "s", "s", "a", "g", "e", " "];
    MessageAfterComment();
    MessageOpened();
    ScanAppend("()message ", '(', "");
    assert "()message " + ['('] == "()message (";
    assert ScanOf("()message (", "") == Scan(0, true, o10 + ["("]);
    ScanAppend("()message (", 'a', "");
    assert "()message (" + ['a'] == "()message (a";
  }

  lemma FirstRedaction()
    ensures Concat(Elements("()message (a", "")) == "message (a"
  {
    FirstScan();
    var o12: seq<string> := ["", "", "m", "e", "s", "s", "a", "g", "e", " ", "(", "a"];
    assert o12 == ["", ""] + Chars("message (a");
    ConcatAppend(["", ""], Chars("message (a"));
    Singles("message (a");
  }

  /** Redacted again, the same "message " comes eight elements in and opens nothing, so the comment goes. */
  lemma SecondRedaction()
    ensures Concat(Elements("message (a", "")) == "message "
  {
    var o8 := Chars("message ");
    SecondParen();
    NoMessageAfterParen();
    ScanAppend("message (", 'a', "");
    assert "message (" + ['a'] == "message (a";
    assert ScanOf("message (a", "") == Scan(1, false, o8 + ["", ""]);
    ConcatAppend(o8, ["", ""]);
    Singles("message ");
  }

  /** The `(` after "message " opens a comment and leaves the empty placeholder. */
  lemma SecondParen()
    ensures ScanOf("message (", "") == Scan(1, false, Chars("message ") + [""])
  {
    ShortPlain("message ");
    ScanAppend("message ", '(', "");
    assert "message " + ['('] == "message (";
  }

  /** With the keyword at the start, the last eight elements do not spell it out. */
  lemma NoMessageAfterParen()
    ensures !OpensMessage(Chars("message ") + [""])
  {
    var o8 := Chars("message ");
    Singles("essage ");
    assert (o8 + [""])[1..] == Chars("essage ") + [""];
    ConcatAppend(Chars("essage "), [""]);
  }

  /**
   * Redacting with the empty placeholder is not idempotent: deleting a
   * comment can bring a "message " keyword within eight elements of the
   * start, where the `len(output) > 8` test no longer sees it, so a second
   * pass deletes text the first one kept.
   */
  lemma EmptyPlaceholderNotIdempotent()
    ensures Concat(Elements("()message (a", "")) == "message (a"
    ensures Concat(Elements(Concat(Elements("()message (a", "")), "")) == "message "
  {
    FirstRedaction();
    SecondRedaction();
  }

  /**
   * Redacting with the default one-space placeholder again reads the first
   * pass's elements back one for one: the emitted prefixes agree, so both
   * passes see the same message flag, and every `(` the first pass kept was
   * inside a message, so the second pass never enters a comment.
   */
  lemma {:induction false} SpaceSecondPass(input: string)
    ensures ScanOf(Concat(Elements(input, " ")), " ") == Scan(0, ScanOf(input, " ").inMessage, Elements(input, " "))
  {
    if input != [] {
      var v, c := input[..|input| - 1], input[|input| - 1];
      SpaceSecondPass(v);
      var first := ScanOf(v, " ");
      var after := Step(first, c, " ");
      var e := after.output[|after.output| - 1];
      assert after.output == first.output + [e];
      assert |e| == 1;
      var d := e[0];
      assert e == [d];
      var y := Concat(first.output);
      assert Concat(after.output) == y + [d];
      ScanAppend(y, d, " ");
      assert d == '\n' <==> c == '\n';
      assert d == '(' ==> after.inMessage;
    }
  }

  /** Redacting again with the default one-space placeholder changes nothing. */
  lemma SpaceIdempotent(input: string)
    ensures Concat(Elements(Concat(Elements(input, " ")), " ")) == Concat(Elements(input, " "))
  {
    SpaceSecondPass(input);
  }
}
