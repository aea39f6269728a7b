/** Console command text: a command is a sequence of words joined by single
    spaces, and a builder that produced no words yields the empty command,
    which the nodes never send. */
module CommandText {
  import opened Wrappers

  /** The words separated by single spaces, as a template literal such as
      `kick ${player} ${reason}` lays them out. */
  function Join(words: seq<string>): string {
    if |words| == 0 then ""
    else if |words| == 1 then words[0]
    else words[0] + " " + Join(words[1..])
  }

  /** Cutting a command at every space (the inverse of `Join`); consecutive
      spaces give empty pieces, so the result always has at least one piece. */
  function Split(s: string): (pieces: seq<string>)
    ensures |pieces| >= 1
  {
    if s == [] then [""]
    else
      var rest := Split(s[1..]);
      if s[0] == ' ' then [""] + rest
      else [[s[0]] + rest[0]] + rest[1..]
  }

  /** Joining splits at any word boundary: the first `n` words, a space, and
      the rest. */
  lemma {:induction false} JoinHead(words: seq<string>, n: nat)
    requires 1 <= n < |words|
    ensures Join(words) == Join(words[..n]) + " " + Join(words[n..])
  {
    if n > 1 {
      JoinHead(words[1..], n - 1);
      assert words[1..][..n - 1] == words[..n][1..];
      assert words[1..][n - 1..] == words[n..];
    }
  }

  /** Two words laid out with a single space between them. */
  lemma JoinTwo(a: string, b: string)
    ensures Join([a, b]) == a + " " + b
  {
    assert [a, b][1..] == [b];
  }

  /** Three words laid out with single spaces. */
  lemma JoinThree(a: string, b: string, c: string)
    ensures Join([a, b, c]) == a + " " + b + " " + c
  {
    assert [a, b, c][1..] == [b, c];
    JoinTwo(b, c);
  }

  /** Four words laid out with single spaces. */
  lemma JoinFour(a: string, b: string, c: string, d: string)
    ensures Join([a, b, c, d]) == a + " " + b + " " + c + " " + d
  {
    assert [a, b, c, d][1..] == [b, c, d];
    JoinThree(b, c, d);
  }

  /** The command verb: the text before the first space. */
  function FirstWord(s: string): string {
    Split(s)[0]
  }

  predicate SpaceFree(words: seq<string>) {
    forall i :: 0 <= i < |words| ==> ' ' !in words[i]
  }

  /** A space-free word followed by `t` splits into the word glued to the
      first piece of `t`, then the remaining pieces of `t`. */
  lemma {:induction false} SplitAfterWord(w: string, t: string)
    requires ' ' !in w
    ensures Split(w + t) == [w + Split(t)[0]] + Split(t)[1..]
  {
    if w != [] {
      assert (w + t)[1..] == w[1..] + t;
      SplitAfterWord(w[1..], t);
      var rest := Split(w[1..] + t);
      assert rest[0] == w[1..] + Split(t)[0];
      assert rest[1..] == Split(t)[1..];
      assert [w[0]] + (w[1..] + Split(t)[0]) == w + Split(t)[0];
    } else {
      assert w + t == t;
      assert w + Split(t)[0] == Split(t)[0];
      assert Split(t) == [Split(t)[0]] + Split(t)[1..];
    }
  }

  /** Splitting a joined command recovers its words, provided no word holds a
      space of its own. */
  lemma {:induction false} SplitJoin(words: seq<string>)
    requires |words| >= 1 && SpaceFree(words)
    ensures Split(Join(words)) == words
  {
    if |words| == 1 {
      SplitAfterWord(words[0], "");
      assert words[0] + "" == words[0];
    } else {
      var rest := Join(words[1..]);
      assert ' ' !in words[0];
      assert words[0] + " " + rest == words[0] + (" " + rest);
      SplitAfterWord(words[0], " " + rest);
      assert (" " + rest)[0] == ' ' && (" " + rest)[1..] == rest;
      assert Split(" " + rest) == [""] + Split(rest);
      SplitJoin(words[1..]);
      assert words[0] + "" == words[0];
      assert words == [words[0]] + words[1..];
    }
  }

  /** The verb of a joined command is its first word, even when later words
      carry spaces (as coordinates such as "~ ~ ~" do). */
  lemma {:induction false} FirstWordOfJoin(words: seq<string>)
    requires |words| >= 1 && ' ' !in words[0]
    ensures FirstWord(Join(words)) == words[0]
  {
    if |words| == 1 {
      SplitAfterWord(words[0], "");
      assert words[0] + "" == words[0];
    } else {
      var rest := Join(words[1..]);
      assert words[0] + " " + rest == words[0] + (" " + rest);
      SplitAfterWord(words[0], " " + rest);
    }
  }

  /** The gate `if (command)` in front of every send: only a non-empty
      command string is sent to the server. */
  predicate Sends(command: string) {
    command != ""
  }

  /** A command that opens with a non-empty verb. */
  predicate Verbed(words: seq<string>) {
    |words| >= 1 && words[0] != "" && ' ' !in words[0]
  }

  /** What a verbed command looks like once joined: non-empty, led by its
      verb, and split back into its words when none of them holds a space. */
  lemma JoinVerbed(words: seq<string>)
    requires Verbed(words)
    ensures Join(words) != ""
    ensures FirstWord(Join(words)) == words[0]
    ensures SpaceFree(words) ==> Split(Join(words)) == words
  {
    FirstWordOfJoin(words);
    if SpaceFree(words) {
      SplitJoin(words);
    }
    assert Split("") == [""];
  }

  /** The command string a builder leaves in `command`: its words, or the
      initial "" when no case of the switch assigned one. */
  function Render(words: Option<seq<string>>): (command: string)
    requires words.Some? ==> Verbed(words.value)
    ensures Sends(command) <==> words.Some?
  {
    match words
    case None => ""
    case Some(ws) =>
      JoinVerbed(ws);
      Join(ws)
  }
}
