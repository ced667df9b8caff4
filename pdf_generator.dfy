/**
 * The `PDFGenerator` class: its option table, output mode, file names and
 * temp-file registry, and the control flow of generating a PDF.
 *
 * The world outside the object is abstracted. `tempnam('/tmp', 'pdf')` is an
 * oracle fixed at construction that returns a new name on every call. The
 * calls the class makes to the outside (writing the HTML file, sending the
 * download headers, running the binary, deleting files) are appended to an
 * `effects` log, so their order can be stated. The binary's exit code is a
 * parameter of the methods that run it.
 */
module PdfGenerator {
  import opened ShellQuoting
  import opened OptionArray
  import opened CommandLine

  /** The two output modes; the class compares modes as plain strings. */
  const DOWNLOAD: string := "download"
  const TEMP_FILE: string := "temp_file"

  const DEFAULT_BINARY: string := "/usr/local/bin/wkhtmltopdf-i386"

  /** Errors that leave a method. */
  datatype Error =
    | UndeclaredStaticProperty  // PHP `Error`: `self::$FILE` is not declared
    | GenerationFailed          // `DebugException("PDF generation failed")`

  datatype Result<T> = Success(value: T) | Failure(error: Error)

  /** A call the class makes to its environment. */
  datatype Effect =
    | PutContents(path: string, data: string)  // file_put_contents
    | SendHeaders                               // outputPDFDownloadHeaders()
    | Passthru(command: string)                 // passthru($command, $exit_code)
    | Unlink(path: string)                      // unlink($filename)

  function Unlinks(paths: seq<string>): (r: seq<Effect>)
    ensures |r| == |paths| && forall i :: 0 <= i < |paths| ==> r[i] == Unlink(paths[i])
  {
    if paths == [] then [] else Unlinks(paths[..|paths| - 1]) + [Unlink(paths[|paths| - 1])]
  }

  /** The oracle never returns the same name twice. */
  ghost predicate Injective(tempnam: nat -> string) {
    forall i: nat, j: nat :: i != j ==> tempnam(i) != tempnam(j)
  }

  predicate NoDuplicates(s: seq<string>) {
    forall i, j :: 0 <= i < j < |s| ==> s[i] != s[j]
  }

  /** The name `getTempFilename` builds from the `n`-th tempnam result. */
  function HtmlTempName(tempnam: nat -> string, n: nat): string {
    tempnam(n) + ".html"
  }

  /** The registered name is the tempnam result with `.html` after it. */
  lemma HtmlTempNameParts(tempnam: nat -> string, n: nat)
    ensures |HtmlTempName(tempnam, n)| == |tempnam(n)| + 5
    ensures HtmlTempName(tempnam, n)[..|tempnam(n)|] == tempnam(n)
    ensures HtmlTempName(tempnam, n)[|tempnam(n)|..] == ".html"
  {
  }

  lemma SuffixCancel(x: string, y: string, suffix: string)
    ensures x + suffix == y + suffix ==> x == y
  {
    if x + suffix == y + suffix {
      assert |x| == |y|;
      assert x == (x + suffix)[..|x|];
      assert y == (y + suffix)[..|y|];
    }
  }

  lemma HtmlTempNameInjective(tempnam: nat -> string, i: nat, j: nat)
    requires Injective(tempnam) && i != j
    ensures HtmlTempName(tempnam, i) != HtmlTempName(tempnam, j)
  {
    SuffixCancel(tempnam(i), tempnam(j), ".html");
  }

  /**
   * The option table after the four `setOption` calls of `setMargins`. Keys
   * stay distinct, every earlier entry keeps its key and place, and at most
   * the four margin entries are added.
   */
  function MarginsSet(m: OptionMap, t: Value, r: Value, b: Value, l: Value): (res: OptionMap)
    requires DistinctKeys(m)
    ensures DistinctKeys(res) && |m| <= |res| <= |m| + 4
    ensures forall i :: 0 <= i < |m| ==> res[i].0 == m[i].0
  {
    var top := Put(m, "margin-top", t);
    var right := Put(top, "margin-right", r);
    var bottom := Put(right, "margin-bottom", b);
    PutKeepsKeys(m, "margin-top", t);
    PutKeepsKeys(top, "margin-right", r);
    PutKeepsKeys(right, "margin-bottom", b);
    PutKeepsKeys(bottom, "margin-left", l);
    Put(bottom, "margin-left", l)
  }

  lemma MarginsSetGets(m: OptionMap, t: Value, r: Value, b: Value, l: Value)
    requires DistinctKeys(m)
    ensures Get(MarginsSet(m, t, r, b, l), "margin-top") == Some(t)
    ensures Get(MarginsSet(m, t, r, b, l), "margin-right") == Some(r)
    ensures Get(MarginsSet(m, t, r, b, l), "margin-bottom") == Some(b)
    ensures Get(MarginsSet(m, t, r, b, l), "margin-left") == Some(l)
    ensures forall k :: k != "margin-top" && k != "margin-right" && k != "margin-bottom" && k != "margin-left" ==>
      Get(MarginsSet(m, t, r, b, l), k) == Get(m, k)
  {
    var m1 := Put(m, "margin-top", t);
    var m2 := Put(m1, "margin-right", r);
    var m3 := Put(m2, "margin-bottom", b);
    var m4 := Put(m3, "margin-left", l);
    assert Get(m4, "margin-top") == Get(m3, "margin-top") == Get(m2, "margin-top") == Get(m1, "margin-top");
    assert Get(m4, "margin-right") == Get(m3, "margin-right") == Get(m2, "margin-right");
    assert Get(m4, "margin-bottom") == Get(m3, "margin-bottom");
    forall k | k != "margin-top" && k != "margin-right" && k != "margin-bottom" && k != "margin-left"
      ensures Get(m4, k) == Get(m, k)
    {
      assert Get(m4, k) == Get(m3, k) == Get(m2, k) == Get(m1, k) == Get(m, k);
    }
  }

  class PDFGenerator {
    const pathToBinary: string
    var options: OptionMap
    var outputMode: string
    var outputFilename: Option<string>
    var inputFilename: Option<string>
    /** Captured output of the binary; only the `exec` branch of `generate` would set it. */
    var stdout: Option<seq<string>>
    var tempFiles: seq<string>

    /** The environment: the tempnam oracle, how many times it was called, and the calls made so far. */
    const tempnam: nat -> string
    var tempnamCalls: nat
    var effects: seq<Effect>
    /** Which tempnam call produced each registered temp file. */
    ghost var tempSources: seq<nat>

    ghost predicate Valid()
      reads this
    {
      && DistinctKeys(options)
      && Injective(tempnam)
      && |tempSources| == |tempFiles|
      && (forall i :: 0 <= i < |tempFiles| ==>
            tempSources[i] < tempnamCalls && tempFiles[i] == HtmlTempName(tempnam, tempSources[i]))
      && (forall i, j :: 0 <= i < j < |tempSources| ==> tempSources[i] < tempSources[j])
    }

    /** Every registered temp file is registered once. */
    lemma TempFilesDistinct()
      requires Valid()
      ensures NoDuplicates(tempFiles)
    {
      forall i, j | 0 <= i < j < |tempFiles| ensures tempFiles[i] != tempFiles[j] {
        HtmlTempNameInjective(tempnam, tempSources[i], tempSources[j]);
      }
    }

    /** A new generator: quiet flag only, download mode, no files. */
    constructor (tempnam: nat -> string)
      requires Injective(tempnam)
      ensures Valid()
      ensures pathToBinary == DEFAULT_BINARY && this.tempnam == tempnam
      ensures options == [("q", True)]
      ensures outputMode == DOWNLOAD && outputFilename == None && inputFilename == None && stdout == None
      ensures tempFiles == [] && tempnamCalls == 0 && effects == []
    {
      pathToBinary := DEFAULT_BINARY;
      options := [("q", True)];
      outputMode := DOWNLOAD;
      outputFilename := None;
      inputFilename := None;
      stdout := None;
      tempFiles := [];
      this.tempnam := tempnam;
      tempnamCalls := 0;
      effects := [];
      tempSources := [];
    }

    /** `$this->inputFilename` as `escapeshellarg` sees it: PHP converts `null` to the empty string. */
    function InputPath(): (r: string)
      reads this
      ensures inputFilename.Some? ==> r == inputFilename.value
      ensures inputFilename.None? ==> EscapeShellArg(r) == [Quote, Quote]
    {
      match inputFilename
      case Some(path) => path
      case None => ""
    }

    /** `outputFilename()`: `-` in download mode; any other mode reaches the undeclared `self::$FILE`. */
    function OutputFilename(): (r: Result<string>)
      reads this
      ensures r.Success? <==> outputMode == DOWNLOAD
      ensures r.Success? ==> r.value == "-"
      ensures r.Failure? ==> r.error == UndeclaredStaticProperty
    {
      if outputMode == DOWNLOAD then Success("-") else Failure(UndeclaredStaticProperty)
    }

    /** `setOption`: the PHP array assignment on the option table. */
    method SetOption(name: string, value: Value := True)
      requires Valid()
      modifies this`options
      ensures Valid()
      ensures options == Put(old(options), name, value)
      ensures Get(options, name) == Some(value)
      ensures Get(old(options), name).Some? ==>
        |options| == |old(options)| &&
        forall i :: 0 <= i < |options| ==> options[i] == (if old(options)[i].0 == name then (name, value) else old(options)[i])
      ensures Get(old(options), name).None? ==> options == old(options) + [(name, value)]
    {
      options := Put(options, name, value);
    }

    /** `setPageSize`: sets page-width then page-height, nothing else. */
    method SetPageSize(width: Value, height: Value)
      requires Valid()
      modifies this`options
      ensures Valid()
      ensures options == Put(Put(old(options), "page-width", width), "page-height", height)
      ensures Get(options, "page-width") == Some(width) && Get(options, "page-height") == Some(height)
      ensures forall k :: k != "page-width" && k != "page-height" ==> Get(options, k) == Get(old(options), k)
    {
      SetOption("page-width", width);
      SetOption("page-height", height);
    }

    /** `setPageSizeByName`: width and height set to null where they stand, page-size set to the name. */
    method SetPageSizeByName(paperSizeName: Value)
      requires Valid()
      modifies this`options
      ensures Valid()
      ensures options == Put(Put(Put(old(options), "page-width", Null), "page-height", Null), "page-size", paperSizeName)
      ensures Get(options, "page-width") == Some(Null) && Get(options, "page-height") == Some(Null)
      ensures Get(options, "page-size") == Some(paperSizeName)
      ensures forall k :: k != "page-width" && k != "page-height" && k != "page-size" ==> Get(options, k) == Get(old(options), k)
    {
      SetOption("page-width", Null);
      SetOption("page-height", Null);
      SetOption("page-size", paperSizeName);
    }

    /** `setMargins`: with `r` null all four margins take `t`; otherwise top, right, bottom, left in order. */
    method SetMargins(t: Value, r: Value := Null, b: Value := Null, l: Value := Null)
      requires Valid()
      modifies this`options
      ensures Valid()
      ensures options == MarginsSet(old(options), t, if r == Null then t else r,
                                    if r == Null then t else b, if r == Null then t else l)
      ensures Get(options, "margin-top") == Some(t)
      ensures Get(options, "margin-right") == Some(if r == Null then t else r)
      ensures Get(options, "margin-bottom") == Some(if r == Null then t else b)
      ensures Get(options, "margin-left") == Some(if r == Null then t else l)
      ensures forall k :: k != "margin-top" && k != "margin-right" && k != "margin-bottom" && k != "margin-left" ==>
        Get(options, k) == Get(old(options), k)
    {
      var right, bottom, left := r, b, l;
      if r == Null {
        right, bottom, left := t, t, t;
      }
      ghost var m0 := options;
      SetOption("margin-top", t);
      SetOption("margin-right", right);
      SetOption("margin-bottom", bottom);
      SetOption("margin-left", left);
      MarginsSetGets(m0, t, right, bottom, left);
    }

    /** `setOutputMode`: only `temp_file` asks tempnam for an output name, which is not registered for cleanup. */
    method SetOutputMode(mode: string)
      requires Valid()
      modifies this`outputMode, this`outputFilename, this`tempnamCalls
      ensures Valid()
      ensures outputMode == mode
      ensures mode == TEMP_FILE ==>
        outputFilename == Some(tempnam(old(tempnamCalls)) + ".pdf") && tempnamCalls == old(tempnamCalls) + 1
      ensures mode != TEMP_FILE ==>
        outputFilename == old(outputFilename) && tempnamCalls == old(tempnamCalls)
      ensures tempFiles == old(tempFiles)
    {
      outputMode := mode;
      if mode == TEMP_FILE {
        outputFilename := Some(tempnam(tempnamCalls) + ".pdf");
        tempnamCalls := tempnamCalls + 1;
      }
    }

    /** `getTempFilename`: a fresh `.html` name, registered for cleanup. */
    method GetTempFilename() returns (tmp: string)
      requires Valid()
      modifies this`tempFiles, this`tempnamCalls, this`tempSources
      ensures Valid()
      ensures tmp == HtmlTempName(tempnam, old(tempnamCalls)) && tempnamCalls == old(tempnamCalls) + 1
      ensures tmp !in old(tempFiles)
      ensures tempFiles == old(tempFiles) + [tmp]
    {
      tmp := HtmlTempName(tempnam, tempnamCalls);
      forall i | 0 <= i < |tempFiles| ensures tempFiles[i] != tmp {
        HtmlTempNameInjective(tempnam, tempSources[i], tempnamCalls);
      }
      tempFiles := tempFiles + [tmp];
      tempSources := tempSources + [tempnamCalls];
      tempnamCalls := tempnamCalls + 1;
    }

    /** `setInputHTML`: the HTML goes to a fresh registered temp file, which becomes the input. */
    method SetInputHTML(html: string)
      requires Valid()
      modifies this`inputFilename, this`tempFiles, this`tempnamCalls, this`tempSources, this`effects
      ensures Valid()
      ensures inputFilename == Some(HtmlTempName(tempnam, old(tempnamCalls))) && tempnamCalls == old(tempnamCalls) + 1
      ensures inputFilename.value !in old(tempFiles)
      ensures tempFiles == old(tempFiles) + [inputFilename.value]
      ensures effects == old(effects) + [PutContents(inputFilename.value, html)]
    {
      var path := GetTempFilename();
      inputFilename := Some(path);
      effects := effects + [PutContents(path, html)];
    }

    /**
     * `buildCommandlineArguments`: the options in table order, then the
     * escaped input and output paths; fails outside download mode because
     * `outputFilename()` does.
     */
    method BuildCommandlineArguments() returns (r: Result<string>)
      ensures outputMode == DOWNLOAD ==> r == Success(ArgumentString(options, InputPath(), "-"))
      ensures outputMode != DOWNLOAD ==> r == Failure(UndeclaredStaticProperty)
    {
      var args := "";
      var i := 0;
      while i < |options|
        invariant 0 <= i <= |options|
        invariant args == RenderOptions(options[..i])
      {
        var (key, value) := options[i];
        RenderOptionsPrefix(options, i);
        if value == Null || value == False {
          i := i + 1;
          continue;
        }
        var dash := if |key| == 1 then "-" else "--";
        var entry := if value == True then " " + dash + key + " "
                     else " " + dash + key + " " + EscapeShellArg(value.text);
        assert entry == RenderEntry(options[i]);
        args := args + entry;
        i := i + 1;
      }
      assert options[..i] == options;
      var output := OutputFilename();
      if output.Failure? {
        return Failure(output.error);
      }
      r := Success(args + " " + EscapeShellArg(InputPath()) + " " + EscapeShellArg(output.value));
    }

    /** `cleanupTempFiles`: unlinks every registered file in order; the registry itself is kept. */
    method CleanupTempFiles()
      requires Valid()
      modifies this`effects
      ensures Valid()
      ensures tempFiles == old(tempFiles)
      ensures effects == old(effects) + Unlinks(tempFiles)
    {
      var i := 0;
      while i < |tempFiles|
        invariant 0 <= i <= |tempFiles|
        invariant effects == old(effects) + Unlinks(tempFiles[..i])
      {
        assert tempFiles[..i + 1][..i] == tempFiles[..i];
        effects := effects + [Unlink(tempFiles[i])];
        i := i + 1;
      }
      assert tempFiles[..i] == tempFiles;
    }

    /**
     * `generate`. Outside download mode building the arguments fails before
     * anything runs, and the mode is left as it was. In download mode the mode
     * test (an assignment of download mode, not a comparison) holds, so the
     * headers are sent and the binary runs through `passthru`. The temp files
     * are deleted before the exit code is looked at; a zero exit code gives
     * `true`, any other an exception, never `false`.
     */
    method Generate(exitCode: int) returns (r: Result<bool>)
      requires Valid()
      modifies this`outputMode, this`effects
      ensures Valid()
      ensures tempFiles == old(tempFiles) && options == old(options)
      ensures old(outputMode) != DOWNLOAD ==>
        r == Failure(UndeclaredStaticProperty) && outputMode == old(outputMode) && effects == old(effects)
      ensures old(outputMode) == DOWNLOAD ==>
        && outputMode == DOWNLOAD
        && effects == old(effects) + [SendHeaders, Passthru(CommandString(pathToBinary, options, InputPath(), "-"))]
                      + Unlinks(tempFiles)
        && r == (if exitCode == 0 then Success(true) else Failure(GenerationFailed))
      ensures r != Success(false)
    {
      var args := BuildCommandlineArguments();
      if args.Failure? {
        return Failure(args.error);
      }
      var command := pathToBinary + " " + args.value;
      outputMode := DOWNLOAD;
      effects := effects + [SendHeaders, Passthru(command)];
      CleanupTempFiles();
      var success := exitCode == 0;
      if !success {
        return Failure(GenerationFailed);
      }
      return Success(success);
    }

    /** `streamToClient`: download mode first, then `generate`, which therefore always runs the binary. */
    method StreamToClient(exitCode: int) returns (r: Result<bool>)
      requires Valid()
      modifies this`outputMode, this`outputFilename, this`tempnamCalls, this`effects
      ensures Valid()
      ensures outputMode == DOWNLOAD && outputFilename == old(outputFilename) && tempnamCalls == old(tempnamCalls)
      ensures effects == old(effects) + [SendHeaders, Passthru(CommandString(pathToBinary, options, InputPath(), "-"))]
                         + Unlinks(tempFiles)
      ensures r == (if exitCode == 0 then Success(true) else Failure(GenerationFailed))
    {
      SetOutputMode(DOWNLOAD);
      r := Generate(exitCode);
    }
  }
}

/** Uses of the class, as its doc comment and its default state describe them. */
module PdfGeneratorUsage {
  import opened ShellQuoting
  import opened OptionArray
  import opened CommandLine
  import opened PdfGenerator

  lemma DefaultBinaryIsPlain()
    ensures IsPlainWord(DEFAULT_BINARY) && DEFAULT_BINARY != []
  {
  }

  /** The option table the class comment's example builds, in insertion order. */
  function ExampleOptions(width: string, height: string, margin: string): OptionMap {
    [("q", True), ("page-width", Val(width)), ("page-height", Val(height)),
     ("margin-top", Val(margin)), ("margin-right", Val(margin)), ("margin-bottom", Val(margin)), ("margin-left", Val(margin))]
  }

  lemma ExampleKeys(width: string, height: string, margin: string)
    ensures DistinctKeys(ExampleOptions(width, height, margin))
    ensures EmittedKeysPlain(ExampleOptions(width, height, margin))
  {
    var d := ExampleOptions(width, height, margin);
    forall i | 0 <= i < |d| ensures IsPlainWord(d[i].0) {
    }
  }

  /** Each `setOption` of the example appends a key the table does not hold yet. */
  lemma ExampleStep(d: OptionMap, n: nat)
    requires DistinctKeys(d) && 1 <= n < |d|
    ensures DistinctKeys(d[..n])
    ensures Put(d[..n], d[n].0, d[n].1) == d[..n + 1]
  {
    assert d[..n] + [d[n]] == d[..n + 1];
  }

  /** The page-size assignments of the example, replayed on any table with the example's first three entries. */
  lemma PageSizeChain(d: OptionMap, width: string, height: string)
    requires DistinctKeys(d) && |d| >= 3
    requires d[0] == ("q", True) && d[1] == ("page-width", Val(width)) && d[2] == ("page-height", Val(height))
    ensures DistinctKeys([("q", True)])
    ensures Put(Put([("q", True)], "page-width", Val(width)), "page-height", Val(height)) == d[..3]
  {
    ExampleStep(d, 1);
    ExampleStep(d, 2);
    assert [("q", True)] == d[..1];
  }

  /** The margin assignments of the example, replayed on any table ending in the four margins. */
  lemma MarginsChain(d: OptionMap, margin: string)
    requires DistinctKeys(d) && |d| == 7
    requires d[3] == ("margin-top", Val(margin)) && d[4] == ("margin-right", Val(margin))
    requires d[5] == ("margin-bottom", Val(margin)) && d[6] == ("margin-left", Val(margin))
    ensures DistinctKeys(d[..3])
    ensures MarginsSet(d[..3], Val(margin), Val(margin), Val(margin), Val(margin)) == d
  {
    ExampleStep(d, 3);
    ExampleStep(d, 4);
    ExampleStep(d, 5);
    ExampleStep(d, 6);
    assert d[..7] == d;
  }

  /** The example's calls, replayed on any table holding the example's seven entries. */
  lemma ExampleBuildChain(d: OptionMap, width: string, height: string, margin: string)
    requires DistinctKeys(d) && |d| == 7
    requires d[0] == ("q", True) && d[1] == ("page-width", Val(width)) && d[2] == ("page-height", Val(height))
    requires d[3] == ("margin-top", Val(margin)) && d[4] == ("margin-right", Val(margin))
    requires d[5] == ("margin-bottom", Val(margin)) && d[6] == ("margin-left", Val(margin))
    ensures DistinctKeys([("q", True)])
    ensures var m := Put(Put([("q", True)], "page-width", Val(width)), "page-height", Val(height));
      DistinctKeys(m) && MarginsSet(m, Val(margin), Val(margin), Val(margin), Val(margin)) == d
  {
    PageSizeChain(d, width, height);
    MarginsChain(d, margin);
  }

  lemma ExampleOptionsBuilt(width: string, height: string, margin: string)
    ensures DistinctKeys([("q", True)])
    ensures var m := Put(Put([("q", True)], "page-width", Val(width)), "page-height", Val(height));
      DistinctKeys(m) && MarginsSet(m, Val(margin), Val(margin), Val(margin), Val(margin)) == ExampleOptions(width, height, margin)
  {
    ExampleKeys(width, height, margin);
    ExampleBuildChain(ExampleOptions(width, height, margin), width, height, margin);
  }

  lemma QuietArgv(d: OptionMap)
    requires |d| >= 1 && d[0] == ("q", True)
    ensures OptionsArgv(d[..1]) == ["-q"]
  {
    OptionsArgvAppend([], d[0]);
    assert [] + [d[0]] == d[..1];
    ExampleFlags();
  }

  /** The arguments one emitted entry of the example adds after those of the entries before it. */
  lemma ExampleEntryArgv(d: OptionMap, n: nat, key: string, value: string, before: seq<string>)
    requires 1 <= n <= |d| && d[n - 1] == (key, Val(value)) && |key| > 1
    requires OptionsArgv(d[..n - 1]) == before
    ensures OptionsArgv(d[..n]) == before + ["--" + key, value]
  {
    OptionsArgvAppend(d[..n - 1], d[n - 1]);
    assert d[..n - 1] + [d[n - 1]] == d[..n];
  }

  /** Proof step: the literal dash-and-name strings of the example's options. */
  lemma ExampleFlags()
    ensures "-" + "q" == "-q"
    ensures "--" + "page-width" == "--page-width" && "--" + "page-height" == "--page-height"
    ensures "--" + "margin-top" == "--margin-top" && "--" + "margin-right" == "--margin-right"
    ensures "--" + "margin-bottom" == "--margin-bottom" && "--" + "margin-left" == "--margin-left"
  {
  }

  /** Proof step: seven pieces of an argument list concatenated in one go. */
  lemma Flatten7<T>(a: T, b: T, c: T, d: T, e: T, f: T, g: T, h: T, i: T, j: T, k: T, l: T, m: T)
    ensures [a] + [b, c] + [d, e] + [f, g] + [h, i] + [j, k] + [l, m] == [a, b, c, d, e, f, g, h, i, j, k, l, m]
  {
  }

  /** Proof step: the example's option arguments as one flat list. */
  lemma ExampleArgvFlat(w: string, h: string, m: string)
    ensures ["-q"] + ["--" + "page-width", w] + ["--" + "page-height", h] + ["--" + "margin-top", m]
      + ["--" + "margin-right", m] + ["--" + "margin-bottom", m] + ["--" + "margin-left", m]
      == ["-q", "--page-width", w, "--page-height", h,
          "--margin-top", m, "--margin-right", m, "--margin-bottom", m, "--margin-left", m]
  {
    ExampleFlags();
    Flatten7("-q", "--page-width", w, "--page-height", h, "--margin-top", m, "--margin-right", m,
             "--margin-bottom", m, "--margin-left", m);
  }

  /** The arguments of any table holding the example's seven entries. */
  lemma ExampleArgvChain(d: OptionMap, width: string, height: string, margin: string)
    requires |d| == 7 && d[0] == ("q", True) && d[1] == ("page-width", Val(width)) && d[2] == ("page-height", Val(height))
    requires d[3] == ("margin-top", Val(margin)) && d[4] == ("margin-right", Val(margin))
    requires d[5] == ("margin-bottom", Val(margin)) && d[6] == ("margin-left", Val(margin))
    ensures OptionsArgv(d) ==
      ["-q", "--page-width", width, "--page-height", height,
       "--margin-top", margin, "--margin-right", margin, "--margin-bottom", margin, "--margin-left", margin]
  {
    QuietArgv(d);
    var a1 := ["-q"];
    ExampleEntryArgv(d, 2, "page-width", width, a1);
    var a2 := a1 + ["--" + "page-width", width];
    ExampleEntryArgv(d, 3, "page-height", height, a2);
    var a3 := a2 + ["--" + "page-height", height];
    ExampleEntryArgv(d, 4, "margin-top", margin, a3);
    var a4 := a3 + ["--" + "margin-top", margin];
    ExampleEntryArgv(d, 5, "margin-right", margin, a4);
    var a5 := a4 + ["--" + "margin-right", margin];
    ExampleEntryArgv(d, 6, "margin-bottom", margin, a5);
    var a6 := a5 + ["--" + "margin-bottom", margin];
    ExampleEntryArgv(d, 7, "margin-left", margin, a6);
    assert d[..7] == d;
    ExampleArgvFlat(width, height, margin);
  }

  lemma ExampleOptionsArgv(width: string, height: string, margin: string)
    ensures OptionsArgv(ExampleOptions(width, height, margin)) ==
      ["-q", "--page-width", width, "--page-height", height,
       "--margin-top", margin, "--margin-right", margin, "--margin-bottom", margin, "--margin-left", margin]
  {
    ExampleArgvChain(ExampleOptions(width, height, margin), width, height, margin);
  }

  /** Proof step: the binary and the two paths placed around the option arguments. */
  lemma Surround<T>(a: T, b: T, c: T, d: T, e: T, f: T, g: T, h: T, i: T, j: T, k: T, l: T, m: T, n: T, o: T, p: T)
    ensures [a] + [b, c, d, e, f, g, h, i, j, k, l, m, n] + [o, p] == [a, b, c, d, e, f, g, h, i, j, k, l, m, n, o, p]
  {
  }

  /** The command the example runs, as the shell splits it. */
  lemma ExampleCommandWords(width: string, height: string, margin: string, input: string)
    ensures Words(CommandString(DEFAULT_BINARY, ExampleOptions(width, height, margin), input, "-")) ==
      Some([DEFAULT_BINARY, "-q", "--page-width", width, "--page-height", height,
            "--margin-top", margin, "--margin-right", margin, "--margin-bottom", margin,
            "--margin-left", margin, input, "-"])
  {
    var d := ExampleOptions(width, height, margin);
    DefaultBinaryIsPlain();
    ExampleKeys(width, height, margin);
    CommandWords(DEFAULT_BINARY, d, input, "-");
    ExampleOptionsArgv(width, height, margin);
    Surround(DEFAULT_BINARY, "-q", "--page-width", width, "--page-height", height,
             "--margin-top", margin, "--margin-right", margin, "--margin-bottom", margin,
             "--margin-left", margin, input, "-");
  }

  /** The configuration half of the class comment's example, on a generator in its initial state. */
  method ConfigureExample(pdf: PDFGenerator, html: string, width: string, height: string, margin: string)
    requires pdf.Valid() && pdf.options == [("q", True)] && pdf.tempFiles == [] && pdf.tempnamCalls == 0 && pdf.effects == []
    modifies pdf`options, pdf`inputFilename, pdf`tempFiles, pdf`tempnamCalls, pdf`tempSources, pdf`effects
    ensures pdf.Valid()
    ensures pdf.tempnamCalls == 1
    ensures pdf.options == ExampleOptions(width, height, margin)
    ensures pdf.tempFiles == [HtmlTempName(pdf.tempnam, 0)] && pdf.inputFilename == Some(HtmlTempName(pdf.tempnam, 0))
    ensures pdf.effects == [PutContents(HtmlTempName(pdf.tempnam, 0), html)]
  {
    pdf.SetInputHTML(html);
    ghost var input := HtmlTempName(pdf.tempnam, 0);
    ghost var effects := pdf.effects;
    ghost var calls := pdf.tempnamCalls;
    assert pdf.tempFiles == [input] && pdf.inputFilename == Some(input) && effects == [PutContents(input, html)];
    assert calls == 1;
    ghost var opts := pdf.options;
    assert opts == [("q", True)];
    pdf.SetPageSize(Val(width), Val(height));
    pdf.SetMargins(Val(margin));
    ExampleOptionsBuilt(width, height, margin);
  }

  /**
   * The example of the class comment: HTML in, an exact page size, one
   * margin for all four sides, streamed. The binary runs once, with every
   * margin given (so `setMargins(0)` does emit `0`), reading the registered
   * HTML file and writing to standard output; that file is then deleted.
   * `log` is everything the generator did to its environment, in order, and
   * `argv` the words the shell makes of the one command it ran.
   */
  method ClassCommentExample(tempnam: nat -> string, html: string, width: string, height: string, margin: string,
                             exitCode: int)
    returns (r: Result<bool>, argv: Option<seq<string>>, log: seq<Effect>)
    requires Injective(tempnam)
    ensures r == (if exitCode == 0 then Success(true) else Failure(GenerationFailed))
    ensures log == [PutContents(HtmlTempName(tempnam, 0), html), SendHeaders,
                    Passthru(CommandString(DEFAULT_BINARY, ExampleOptions(width, height, margin), HtmlTempName(tempnam, 0), "-")),
                    Unlink(HtmlTempName(tempnam, 0))]
    ensures argv == Some([DEFAULT_BINARY, "-q", "--page-width", width, "--page-height", height,
                          "--margin-top", margin, "--margin-right", margin, "--margin-bottom", margin,
                          "--margin-left", margin, HtmlTempName(tempnam, 0), "-"])
  {
    var pdf := new PDFGenerator(tempnam);
    ConfigureExample(pdf, html, width, height, margin);
    r := pdf.StreamToClient(exitCode);
    log := pdf.effects;
    argv := Words(log[2].command);
    ExampleCommandWords(width, height, margin, HtmlTempName(tempnam, 0));
  }
}
