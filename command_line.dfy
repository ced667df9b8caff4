/**
 * How the option table becomes the wkhtmltopdf argument string, and the
 * argument vector the shell hands the binary when it reads that string.
 */
module CommandLine {
  import opened ShellQuoting
  import opened OptionArray

  /** The value is rendered: anything but PHP `null` and `false` (compared strictly). */
  predicate Emitted(v: Value) {
    v != Null && v != False
  }

  /** One dash for a one-character option name, two otherwise. */
  function Dash(key: string): (r: string)
    ensures r == "-" <==> |key| == 1
    ensures |key| != 1 ==> r == "--"
  {
    if |key| == 1 then "-" else "--"
  }

  /** The text one entry adds: `" -k "` for a bare flag, `" --key "` then the escaped value otherwise. */
  function RenderEntry(e: Entry): (r: string)
    ensures r == "" <==> !Emitted(e.1)
  {
    var (key, value) := e;
    if !Emitted(value) then ""
    else if value == True then " " + Dash(key) + key + " "
    else " " + Dash(key) + key + " " + EscapeShellArg(value.text)
  }

  /**
   * The options part of the argument string, entries in table order. It is
   * empty exactly when no entry is emitted, and otherwise opens with a blank.
   */
  function RenderOptions(m: OptionMap): (r: string)
  {
    if m == [] then "" else RenderOptions(m[..|m| - 1]) + RenderEntry(m[|m| - 1])
  }

  /**
   * The whole argument string: options, then the escaped input and output
   * paths. It always opens with a blank and ends with a closing quote.
   */
  function ArgumentString(m: OptionMap, input: string, output: string): (r: string)
  {
    RenderOptions(m) + " " + EscapeShellArg(input) + " " + EscapeShellArg(output)
  }

  /**
   * The full shell command: the binary, one blank, the argument string. The
   * binary is always followed by two blanks, and the command ends with a quote.
   */
  function CommandString(binary: string, m: OptionMap, input: string, output: string): (r: string)
  {
    binary + " " + ArgumentString(m, input, output)
  }

  /** Reference definition: the arguments one entry should give the binary. */
  function EntryArgv(e: Entry): seq<string> {
    match e.1
    case Null => []
    case False => []
    case True => [Dash(e.0) + e.0]
    case Val(text) => [Dash(e.0) + e.0, text]
  }

  /** Reference definition: the arguments the whole table should give, in table order. */
  function OptionsArgv(m: OptionMap): seq<string> {
    if m == [] then [] else OptionsArgv(m[..|m| - 1]) + EntryArgv(m[|m| - 1])
  }

  lemma RenderOptionsSnoc(c: OptionMap)
    requires c != []
    ensures RenderOptions(c) == RenderOptions(c[..|c| - 1]) + RenderEntry(c[|c| - 1])
  {
  }

  /** Rendering one more entry of the table extends the rendered prefix by that entry. */
  lemma RenderOptionsPrefix(m: OptionMap, i: int)
    requires 0 <= i < |m|
    ensures RenderOptions(m[..i + 1]) == RenderOptions(m[..i]) + RenderEntry(m[i])
  {
    RenderOptionsSnoc(m[..i + 1]);
    assert m[..i + 1][..i] == m[..i];
  }

  lemma DropLastAppend<T>(a: seq<T>, b: seq<T>)
    requires b != []
    ensures (a + b)[..|a + b| - 1] == a + b[..|b| - 1] && (a + b)[|a + b| - 1] == b[|b| - 1]
  {
  }

  /** Rendering the table without its last entry, then that entry. */
  lemma RenderOptionsLast(a: OptionMap, b: OptionMap)
    requires b != []
    ensures RenderOptions(a + b) == RenderOptions(a + b[..|b| - 1]) + RenderEntry(b[|b| - 1])
  {
    RenderOptionsSnoc(a + b);
    DropLastAppend(a, b);
  }

  lemma {:induction false} RenderOptionsAppend(a: OptionMap, b: OptionMap)
    ensures RenderOptions(a + b) == RenderOptions(a) + RenderOptions(b)
    decreases |b|
  {
    if b == [] {
      assert a + b == a;
    } else {
      var init, last := b[..|b| - 1], b[|b| - 1];
      RenderOptionsLast(a, b);
      RenderOptionsAppend(a, init);
      RenderOptionsSnoc(b);
      ConcatAssoc(RenderOptions(a), RenderOptions(init), RenderEntry(last));
    }
  }

  /** A rendered entry opens with a blank. */
  lemma RenderEntryBlank(e: Entry)
    ensures RenderEntry(e) != "" ==> RenderEntry(e)[0] == ' '
  {
  }

  /**
   * The options part is empty exactly when no entry is emitted, and otherwise
   * opens with a blank.
   */
  lemma {:induction false} RenderOptionsBlank(m: OptionMap)
    ensures RenderOptions(m) == "" <==> forall i :: 0 <= i < |m| ==> !Emitted(m[i].1)
    ensures RenderOptions(m) != "" ==> RenderOptions(m)[0] == ' '
    decreases |m|
  {
    if m != [] {
      var init, last := m[..|m| - 1], m[|m| - 1];
      RenderOptionsBlank(init);
      RenderOptionsSnoc(m);
      RenderEntryBlank(last);
      assert forall i :: 0 <= i < |init| ==> init[i] == m[i];
    }
  }

  /** The argument string always opens with a blank and ends with the output path's closing quote. */
  lemma ArgumentStringShape(m: OptionMap, input: string, output: string)
    ensures |ArgumentString(m, input, output)| >= |RenderOptions(m)| + 6
    ensures ArgumentString(m, input, output)[0] == ' '
    ensures ArgumentString(m, input, output)[|ArgumentString(m, input, output)| - 1] == Quote
  {
    RenderOptionsBlank(m);
  }

  /**
   * The command starts with the unescaped binary path, always followed by two
   * blanks (the separator, then the argument string's own), and ends with a quote.
   */
  lemma CommandStringShape(binary: string, m: OptionMap, input: string, output: string)
    ensures |CommandString(binary, m, input, output)| >= |binary| + 7
    ensures CommandString(binary, m, input, output)[..|binary|] == binary
    ensures CommandString(binary, m, input, output)[|binary|] == ' '
    ensures CommandString(binary, m, input, output)[|binary| + 1] == ' '
    ensures CommandString(binary, m, input, output)[|CommandString(binary, m, input, output)| - 1] == Quote
  {
    ArgumentStringShape(m, input, output);
  }

  /**
   * `setOption` seen through the argument string: a new key's entry is
   * rendered last; an existing key's entry is rendered where the key stood,
   * with everything before and after it unchanged.
   */
  lemma RenderPut(m: OptionMap, k: string, v: Value)
    requires DistinctKeys(m)
    ensures Get(m, k).None? ==> RenderOptions(Put(m, k, v)) == RenderOptions(m) + RenderEntry((k, v))
    ensures forall i :: 0 <= i < |m| && m[i].0 == k ==>
      RenderOptions(Put(m, k, v)) == RenderOptions(m[..i]) + RenderEntry((k, v)) + RenderOptions(m[i + 1..])
  {
    if Get(m, k).None? {
      RenderOptionsSnoc(m + [(k, v)]);
      assert (m + [(k, v)])[..|m|] == m;
    }
    forall i | 0 <= i < |m| && m[i].0 == k
      ensures RenderOptions(Put(m, k, v)) == RenderOptions(m[..i]) + RenderEntry((k, v)) + RenderOptions(m[i + 1..])
    {
      RenderPutAt(m, k, v, i);
    }
  }

  lemma RenderPutAt(m: OptionMap, k: string, v: Value, i: int)
    requires DistinctKeys(m) && 0 <= i < |m| && m[i].0 == k
    ensures RenderOptions(Put(m, k, v)) == RenderOptions(m[..i]) + RenderEntry((k, v)) + RenderOptions(m[i + 1..])
  {
    var before, after := m[..i], m[i + 1..];
    PutAt(m, k, v, i);
    RenderOptionsAppend(before + [(k, v)], after);
    RenderOptionsAppend(before, [(k, v)]);
    RenderSingle((k, v));
  }

  lemma RenderSingle(e: Entry)
    ensures RenderOptions([e]) == RenderEntry(e)
  {
    RenderOptionsSnoc([e]);
    assert [e][..0] == [];
  }

  /** Setting a key to `null` or `false` leaves it out of the argument string, as if the entry were removed. */
  lemma SilencedKeyOmitted(m: OptionMap, k: string, v: Value)
    requires DistinctKeys(m) && !Emitted(v)
    ensures Get(m, k).None? ==> RenderOptions(Put(m, k, v)) == RenderOptions(m)
    ensures forall i :: 0 <= i < |m| && m[i].0 == k ==>
      RenderOptions(Put(m, k, v)) == RenderOptions(m[..i] + m[i + 1..])
  {
    RenderPut(m, k, v);
    if Get(m, k).None? {
      assert RenderOptions(m) + "" == RenderOptions(m);
    }
    forall i | 0 <= i < |m| && m[i].0 == k
      ensures RenderOptions(Put(m, k, v)) == RenderOptions(m[..i] + m[i + 1..])
    {
      RenderOptionsAppend(m[..i], m[i + 1..]);
      assert RenderOptions(m[..i]) + "" == RenderOptions(m[..i]);
    }
  }

  lemma OptionsArgvAppend(m: OptionMap, e: Entry)
    ensures OptionsArgv(m + [e]) == OptionsArgv(m) + EntryArgv(e)
  {
    assert (m + [e])[..|m|] == m;
  }

  /** Option names are not escaped, so the argument vector is as intended only for plain names. */
  predicate EmittedKeysPlain(m: OptionMap) {
    forall i :: 0 <= i < |m| && Emitted(m[i].1) ==> IsPlainWord(m[i].0)
  }

  lemma FlagIsPlain(key: string)
    requires IsPlainWord(key)
    ensures IsPlainWord(Dash(key) + key) && Dash(key) + key != []
  {
    var f := Dash(key) + key;
    forall i | 0 <= i < |f| ensures IsPlainChar(f[i]) {
      if i >= |Dash(key)| {
        assert f[i] == key[i - |Dash(key)|];
      }
    }
  }

  /** A blank-delimited plain flag becomes one word and leaves the lexer between words. */
  lemma RunFlag(st: Lexer, flag: string)
    requires Settled(st) && IsPlainWord(flag) && flag != []
    ensures Run(st, " " + flag + " ") == Lexer(Pending(st) + [flag], "", Between)
  {
    var p := Pending(st);
    RunBlank(st);
    var s1 := Lexer(p, "", Between);
    RunPlain(s1, flag);
    var s2 := Lexer(p, flag, InWord);
    assert s2 == Lexer(p, "" + flag, InWord);
    RunBlank(s2);
    RunAppend(st, " ", flag);
    RunAppend(st, " " + flag, " ");
  }

  /** A flag followed by an escaped value becomes two words; the lexer stays inside the value's word. */
  lemma RunValueFlag(st: Lexer, flag: string, text: string)
    requires Settled(st) && IsPlainWord(flag) && flag != []
    ensures Run(st, " " + flag + " " + EscapeShellArg(text)) == Lexer(Pending(st) + [flag], text, InWord)
  {
    RunFlag(st, flag);
    RunAppend(st, " " + flag + " ", EscapeShellArg(text));
    RunEscaped(Lexer(Pending(st) + [flag], "", Between), text);
    assert "" + text == text;
  }

  /** The shell reads one rendered entry as exactly the entry's reference arguments. */
  lemma RunEntry(st: Lexer, e: Entry)
    requires Settled(st)
    requires Emitted(e.1) ==> IsPlainWord(e.0)
    ensures Settled(Run(st, RenderEntry(e)))
    ensures Pending(Run(st, RenderEntry(e))) == Pending(st) + EntryArgv(e)
  {
    var flag := Dash(e.0) + e.0;
    match e.1
    case Null =>
      assert Pending(st) + [] == Pending(st);
    case False =>
      assert Pending(st) + [] == Pending(st);
    case True =>
      FlagIsPlain(e.0);
      assert RenderEntry(e) == " " + flag + " ";
      RunFlag(st, flag);
    case Val(text) =>
      FlagIsPlain(e.0);
      assert RenderEntry(e) == " " + flag + " " + EscapeShellArg(text);
      RunValueFlag(st, flag, text);
      assert Pending(st) + [flag] + [text] == Pending(st) + [flag, text];
  }

  /** The shell reads the options part as exactly the table's reference arguments. */
  lemma {:induction false} RunOptions(st: Lexer, m: OptionMap)
    requires Settled(st) && EmittedKeysPlain(m)
    ensures Settled(Run(st, RenderOptions(m)))
    ensures Pending(Run(st, RenderOptions(m))) == Pending(st) + OptionsArgv(m)
    decreases |m|
  {
    if m == [] {
      assert Pending(st) + [] == Pending(st);
    } else {
      var init, last := m[..|m| - 1], m[|m| - 1];
      assert EmittedKeysPlain(init) by {
        forall i | 0 <= i < |init| && Emitted(init[i].1) ensures IsPlainWord(init[i].0) {
          assert init[i] == m[i];
        }
      }
      RunOptions(st, init);
      var mid := Run(st, RenderOptions(init));
      RunAppend(st, RenderOptions(init), RenderEntry(last));
      RunEntry(mid, last);
      assert Pending(st) + OptionsArgv(init) + EntryArgv(last) == Pending(st) + OptionsArgv(m);
    }
  }

  /**
   * The argument string "can be sent directly to the binary": read by the
   * shell it yields the emitted options in table order, then the input path,
   * then the output path, each exactly as given.
   */
  lemma ArgumentWords(m: OptionMap, input: string, output: string)
    requires EmittedKeysPlain(m)
    ensures Words(ArgumentString(m, input, output)) == Some(OptionsArgv(m) + [input, output])
  {
    var opts := RenderOptions(m);
    RunOptions(Start, m);
    var s1 := Run(Start, opts);
    assert Pending(s1) == OptionsArgv(m);
    var a := OptionsArgv(m);
    RunBlank(s1);
    var s2 := Lexer(a, "", Between);
    RunEscaped(s2, input);
    var s3 := Lexer(a, input, InWord);
    assert s3 == Lexer(a, "" + input, InWord);
    RunBlank(s3);
    var s4 := Lexer(a + [input], "", Between);
    RunEscaped(s4, output);
    var s5 := Lexer(a + [input], output, InWord);
    assert s5 == Lexer(a + [input], "" + output, InWord);
    RunAppend(Start, opts, " ");
    RunAppend(Start, opts + " ", EscapeShellArg(input));
    RunAppend(Start, opts + " " + EscapeShellArg(input), " ");
    RunAppend(Start, opts + " " + EscapeShellArg(input) + " ", EscapeShellArg(output));
    assert Run(Start, ArgumentString(m, input, output)) == s5;
    assert a + [input] + [output] == a + [input, output];
  }

  /** With a plain binary path, the command's first word is the binary and the rest are the arguments above. */
  lemma CommandWords(binary: string, m: OptionMap, input: string, output: string)
    requires IsPlainWord(binary) && binary != [] && EmittedKeysPlain(m)
    ensures Words(CommandString(binary, m, input, output)) == Some([binary] + OptionsArgv(m) + [input, output])
  {
    var args := ArgumentString(m, input, output);
    ArgumentWords(m, input, output);
    RunPlain(Start, binary);
    var b := Lexer([], binary, InWord);
    assert b == Lexer([], "" + binary, InWord);
    RunBlank(b);
    assert [] + [binary] == [binary];
    RunAppend(Start, binary, " ");
    var afterBinary := Lexer([binary], "", Between);
    assert Run(Start, binary + " ") == afterBinary;
    RunAppend(Start, binary + " ", args);
    assert Run(Start, CommandString(binary, m, input, output)) == Run(afterBinary, args);
    // The arguments read after the binary word are those read from the start, with the binary in front.
    WordsFromShift(args, [binary]);
    assert [binary] + (OptionsArgv(m) + [input, output]) == [binary] + OptionsArgv(m) + [input, output];
  }

  /** Running from a settled state that already holds some words only prefixes those words. */
  lemma {:induction false} RunShift(st: Lexer, pre: seq<string>, s: string)
    ensures Run(st.(words := pre + st.words), s) == Run(st, s).(words := pre + Run(st, s).words)
    decreases |s|
  {
    if s != [] {
      var c := s[0];
      var t := st.(words := pre + st.words);
      assert Step(t, c) == Step(st, c).(words := pre + Step(st, c).words);
      RunShift(Step(st, c), pre, s[1..]);
    }
  }

  lemma WordsFromShift(s: string, pre: seq<string>)
    requires Words(s).Some?
    ensures var st := Run(Lexer(pre, "", Between), s); Unquoted(st) && Pending(st) == pre + Words(s).value
  {
    RunShift(Start, pre, s);
    assert Start.(words := pre + Start.words) == Lexer(pre, "", Between);
    var r := Run(Start, s);
    assert Pending(r.(words := pre + r.words)) == pre + Pending(r);
  }
}
