/**
 * The bullets `append_to_logseq` writes under its header: one open-task line
 * per line of the generated plan, so the next day's parse reads the plan
 * back as open tasks.
 */
module Plan {
  import opened Wrappers
  import opened Text
  import opened Journal

  /** `f"- TODO {l.strip()}"`. */
  function Bullet(line: string): string {
    "- TODO " + Strip(line)
  }

  function Bullets(lines: seq<string>): (r: seq<string>)
    ensures |r| == |lines|
    ensures forall i | 0 <= i < |lines| :: r[i] == Bullet(lines[i])
  {
    seq(|lines|, i requires 0 <= i < |lines| => Bullet(lines[i]))
  }

  /**
   * `"\n".join(f"- TODO {l.strip()}" for l in today_text.splitlines())`.
   * Splitting the written bullets again gives one bullet per line of the
   * plan, in order.
   */
  function PlanBullets(text: string): (r: string)
    ensures SplitLines(r) == Bullets(SplitLines(text))
  {
    var lines := SplitLines(text);
    BulletsRejoin(lines);
    JoinLines(Bullets(lines))
  }

  lemma StripNoLineBreak(s: string)
    requires NoLineBreak(s)
    ensures NoLineBreak(Strip(s))
  {
    var r := Strip(s);
    var a :| 0 <= a <= |s| - |r| && s[a..a + |r|] == r && AllSpace(s[..a]) && AllSpace(s[a + |r|..]);
    forall k | 0 <= k < |r| ensures !IsLineBreak(r[k]) {
      assert r[k] == s[a + k];
    }
  }

  lemma BulletNoLineBreak(line: string)
    requires NoLineBreak(line)
    ensures NoLineBreak(Bullet(line)) && Bullet(line) != []
  {
    StripNoLineBreak(line);
    var b := Bullet(line);
    forall k | 0 <= k < |b| ensures !IsLineBreak(b[k]) {
      if k >= 7 {
        assert b[k] == Strip(line)[k - 7];
      }
    }
  }

  /** Bullets built from lines without a boundary survive `"\n".join` and `splitlines`. */
  lemma BulletsRejoin(lines: seq<string>)
    requires forall i | 0 <= i < |lines| :: NoLineBreak(lines[i])
    ensures SplitLines(JoinLines(Bullets(lines))) == Bullets(lines)
  {
    var bs := Bullets(lines);
    forall i | 0 <= i < |bs| ensures NoLineBreak(bs[i]) && bs[i] != [] {
      BulletNoLineBreak(lines[i]);
    }
    SplitJoin(bs);
  }

  lemma NoNewline(s: string)
    requires NoLineBreak(s)
    ensures '\n' !in s
  {
    assert IsLineBreak('\n');
  }

  lemma BulletBare(body: string)
    requires Bare(body) && body != []
    ensures Bare("- TODO " + body)
  {
    var b := "- TODO " + body;
    assert b[0] == '-';
    assert b[|b| - 1] == body[|body| - 1];
  }

  lemma TextBullet(body: string)
    requires Bare(body) && body != [] && NoLineBreak(body)
    ensures Strip("- TODO " + body) == "- TODO " + body
    ensures TaskMatch(Strip("- TODO " + body)) == Some((Todo, body))
  {
    var b := "- TODO " + body;
    assert b == "- " + Marker(Todo) + " " + body;
    BulletBare(body);
    StripBare(b);
    NoNewline(body);
    TaskMatchPrefix(Todo, " ", body);
  }

  lemma BlankBullet()
    ensures Strip("- TODO ") == "- TODO"
    ensures TaskMatch(Strip("- TODO ")).None?
  {
    assert "- TODO " == [] + "- TODO" + " ";
    StripSurrounded([], "- TODO", " ");
  }

  /**
   * Read back by the journal parser, the bullet for a line with text is an
   * open task whose text is that line stripped; the bullet for a blank line
   * is `"- TODO "`, which `TASK_RE` rejects once stripped.
   */
  lemma BulletReadBack(line: string)
    requires NoLineBreak(line)
    ensures Strip(line) != [] ==> TaskMatch(Strip(Bullet(line))) == Some((Todo, Strip(line)))
    ensures Strip(line) == [] ==> TaskMatch(Strip(Bullet(line))).None?
  {
    var body := Strip(line);
    StripNoLineBreak(line);
    if body != [] {
      TextBullet(body);
    } else {
      assert Bullet(line) == "- TODO ";
      BlankBullet();
    }
  }
}
