/** Quoting a script so that a POSIX shell and fish read the same three words. */
module LoginShell {
  import opened Texts

  const QUOTE := '\''
  const BACKSLASH := '\\'

  // ----- How the two shells read a command -----

  datatype Shell = Posix | Fish

  /** Characters that stand for themselves outside quotes in both shells. */
  predicate Plain(c: char) {
    'a' <= c <= 'z' || 'A' <= c <= 'Z' || '0' <= c <= '9' || c == '-' || c == '_' || c == '.' || c == '/'
  }

  /** What a backslash and `c` stand for outside quotes. A POSIX shell takes every character but a line
      feed as it is; of the characters fish takes as they are, only these two are modelled. */
  predicate EscapedOutside(shell: Shell, c: char) {
    if shell == Posix then c != '\n' else c == QUOTE || c == BACKSLASH
  }

  /** The words of a command, reading outside quotes; `word` is the word that has begun. None where the
      command uses anything but words. */
  function Outside(shell: Shell, text: string, done: seq<string>, word: Option<string>): Option<seq<string>>
    decreases |text|
  {
    var begun := if word.Some? then word.value else "";
    if text == "" then Some(if word.Some? then done + [word.value] else done)
    else if text[0] == ' ' then Outside(shell, text[1..], if word.Some? then done + [word.value] else done, None)
    else if text[0] == QUOTE then Quoted(shell, text[1..], done, begun)
    else if text[0] == BACKSLASH then
      if |text| > 1 && EscapedOutside(shell, text[1]) then
        Outside(shell, text[2..], done, Some(begun + [text[1]])) else None
    else if Plain(text[0]) then Outside(shell, text[1..], done, Some(begun + [text[0]]))
    else None
  }

  /** The words of a command, reading inside single quotes. A POSIX shell knows no escape there; fish
      reads \' and \\ as one character. */
  function Quoted(shell: Shell, text: string, done: seq<string>, word: string): Option<seq<string>>
    decreases |text|
  {
    if text == "" then None
    else if text[0] == QUOTE then Outside(shell, text[1..], done, Some(word))
    else if shell == Fish && text[0] == BACKSLASH && |text| > 1 && (text[1] == QUOTE || text[1] == BACKSLASH) then
      Quoted(shell, text[2..], done, word + [text[1]])
    else Quoted(shell, text[1..], done, word + [text[0]])
  }

  function Words(shell: Shell, command: string): Option<seq<string>> {
    Outside(shell, command, [], None)
  }

  // ----- Wrapping -----

  /** A quote or backslash closes the quotes, is escaped, and opens them again. */
  function Protected(c: char): string {
    if c == QUOTE || c == BACKSLASH then [QUOTE, BACKSLASH, c, QUOTE] else [c]
  }

  function ProtectedAll(script: string): string {
    if script == "" then "" else Protected(script[0]) + ProtectedAll(script[1..])
  }

  function Wrapped(script: string): string {
    "sh -c '" + ProtectedAll(script) + [QUOTE]
  }

  lemma {:induction false} ProtectedSnoc(script: string, c: char)
    ensures ProtectedAll(script + [c]) == ProtectedAll(script) + Protected(c)
  {
    if script == "" {
      assert ProtectedAll([c]) == Protected(c) + ProtectedAll([c][1..]);
    } else {
      ProtectedSnoc(script[1..], c);
      assert (script + [c])[1..] == script[1..] + [c];
      hide Protected;
      assert ProtectedAll(script + [c]) == Protected(script[0]) + ProtectedAll(script[1..] + [c]);
    }
  }

  method WrapForLoginShell(script: string) returns (command: string)
    ensures command == Wrapped(script)
  {
    command := "sh -c '";
    for i := 0 to |script|
      invariant command == "sh -c '" + ProtectedAll(script[..i])
    {
      var ch := script[i];
      assert script[..i + 1] == script[..i] + [ch];
      ProtectedSnoc(script[..i], ch);
      if ch == QUOTE || ch == BACKSLASH {
        command := command + [QUOTE];
        command := command + [BACKSLASH];
        command := command + [ch];
        command := command + [QUOTE];
      } else {
        command := command + [ch];
      }
    }
    assert script[..|script|] == script;
    command := command + [QUOTE];
  }

  // ----- Both shells read the script back -----

  /** One protected character, read inside quotes. */
  lemma ReadProtected(shell: Shell, c: char, rest: string, done: seq<string>, word: string)
    ensures Quoted(shell, Protected(c) + rest, done, word) == Quoted(shell, rest, done, word + [c])
  {
    var text := Protected(c) + rest;
    if c == QUOTE || c == BACKSLASH {
      assert text[1..] == [BACKSLASH, c, QUOTE] + rest;
      assert text[1..][2..] == [QUOTE] + rest;
      assert ([QUOTE] + rest)[1..] == rest;
      assert Quoted(shell, text, done, word) == Outside(shell, text[1..], done, Some(word));
      assert Outside(shell, text[1..], done, Some(word)) == Outside(shell, [QUOTE] + rest, done, Some(word + [c]));
    } else {
      assert text[0] == c && text[1..] == rest;
    }
  }

  lemma {:induction false} ReadScript(shell: Shell, script: string, done: seq<string>, word: string)
    ensures Quoted(shell, ProtectedAll(script) + [QUOTE], done, word) == Some(done + [word + script])
    decreases |script|
  {
    if script == "" {
      assert ProtectedAll(script) + [QUOTE] == [QUOTE];
      assert [QUOTE][1..] == "";
      assert word + script == word;
    } else {
      var rest := ProtectedAll(script[1..]) + [QUOTE];
      assert ProtectedAll(script) + [QUOTE] == Protected(script[0]) + rest;
      ReadProtected(shell, script[0], rest, done, word);
      ReadScript(shell, script[1..], done, word + [script[0]]);
      assert word + [script[0]] + script[1..] == word + script;
    }
  }

  lemma ReadPlain(shell: Shell, c: char, rest: string, done: seq<string>, word: Option<string>)
    requires Plain(c)
    ensures Outside(shell, [c] + rest, done, word)
         == Outside(shell, rest, done, Some((if word.Some? then word.value else "") + [c]))
  {
    assert ([c] + rest)[1..] == rest;
  }

  lemma ReadSpace(shell: Shell, rest: string, done: seq<string>, word: string)
    ensures Outside(shell, " " + rest, done, Some(word)) == Outside(shell, rest, done + [word], None)
  {
    assert (" " + rest)[1..] == rest;
  }

  lemma ReadOpening(shell: Shell, rest: string, done: seq<string>)
    ensures Outside(shell, [QUOTE] + rest, done, None) == Quoted(shell, rest, done, "")
  {
    assert ([QUOTE] + rest)[1..] == rest;
  }

  lemma ReadSh(shell: Shell, rest: string)
    ensures Outside(shell, "sh " + rest, [], None) == Outside(shell, rest, ["sh"], None)
  {
    hide Outside;
    ReadPlain(shell, 's', "h " + rest, [], None);
    ReadPlain(shell, 'h', " " + rest, [], Some("s"));
    ReadSpace(shell, rest, [], "sh");
    assert "sh " + rest == ['s'] + ("h " + rest);
    assert "h " + rest == ['h'] + (" " + rest);
    assert "" + ['s'] == "s" && "s" + ['h'] == "sh";
    assert [] + ["sh"] == ["sh"];
  }

  lemma ReadDashC(shell: Shell, rest: string)
    ensures Outside(shell, "-c " + rest, ["sh"], None) == Outside(shell, rest, ["sh", "-c"], None)
  {
    hide Outside;
    ReadPlain(shell, '-', "c " + rest, ["sh"], None);
    ReadPlain(shell, 'c', " " + rest, ["sh"], Some("-"));
    ReadSpace(shell, rest, ["sh"], "-c");
    assert "-c " + rest == ['-'] + ("c " + rest);
    assert "c " + rest == ['c'] + (" " + rest);
    assert "" + ['-'] == "-" && "-" + ['c'] == "-c";
    assert ["sh"] + ["-c"] == ["sh", "-c"];
  }

  /** For every script, both shells read the wrapped command as sh, -c and the unchanged script. */
  lemma BothShellsReadTheScript(shell: Shell, script: string)
    ensures Words(shell, Wrapped(script)) == Some(["sh", "-c", script])
  {
    hide Outside, Quoted;
    var body := ProtectedAll(script) + [QUOTE];
    assert Wrapped(script) == "sh " + ("-c " + ([QUOTE] + body));
    ReadSh(shell, "-c " + ([QUOTE] + body));
    ReadDashC(shell, [QUOTE] + body);
    ReadOpening(shell, body, ["sh", "-c"]);
    ReadScript(shell, script, ["sh", "-c"], "");
    assert "" + script == script;
    assert ["sh", "-c"] + [script] == ["sh", "-c", script];
  }
}
