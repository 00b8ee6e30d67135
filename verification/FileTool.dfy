/**
 The program around the ciphers of filecrypt.cc: its command line, its two files, and what it
 leaves on the disk. The output is opened, and thereby emptied, before the input is looked at.
 */
module FileTool {
  import opened Bytes
  import opened Errors
  import opened FileCrypt
  import opened Xts
  import ArgParse
  import Hex
  import Padding

  /** The files that can be read, and the paths that can be opened for writing. */
  datatype Disk = Disk(files: map<string, seq<Byte>>, writable: string -> bool) {
    /** The empty path names no file. */
    predicate Valid() {
      "" !in files && !writable("")
    }
  }

  datatype Outcome = Thrown | Help | Refused | Failed | Success

  /** What the program asks its arguments for. */
  datatype Settings = Settings(help: bool, alg: string, keyText: string, ivText: string, encrypt: bool, decrypt: bool,
                               input: string, output: string)
  {
    predicate Hexadecimal() {
      |keyText| % 2 == 0 && |ivText| % 2 == 0
    }

    function Key(): seq<Byte>
      requires Hexadecimal()
    {
      Hex.Parse(keyText)
    }

    function Iv(): seq<Byte>
      requires Hexadecimal()
    {
      Hex.Parse(ivText)
    }

    /** With these the program gets as far as opening its files. */
    predicate Usable() {
      !help && Hexadecimal() && |Key()| >= 16 && |Iv()| >= 16 && encrypt != decrypt
    }
  }

  const DEFAULT_ALG := "aes-cfb-128"

  function SettingsOf(a: ArgParse.Arguments): Settings {
    Settings("--help" in a || "-h" in a, if "--alg" in a then a["--alg"] else DEFAULT_ALG,
             ArgParse.Value(a, "--key"), ArgParse.Value(a, "--iv"), "-e" in a, "-d" in a,
             ArgParse.Value(a, "-i"), ArgParse.Value(a, "-o"))
  }

  /** Opening for writing empties the file, or creates it. */
  function Truncated(disk: Disk, path: string): Disk {
    if disk.writable(path) then disk.(files := disk.files[path := []]) else disk
  }

  function Data(m: Machine, s: Settings, file: seq<Byte>): seq<Byte>
    requires |m.beyond| >= 32 && s.Usable()
  {
    if s.encrypt then EncryptorOutput(m, s.alg, file, s.Key(), s.Iv())
    else DecryptorOutput(m, s.alg, file, s.Key(), s.Iv())
  }

  function Run(m: Machine, disk: Disk, s: Settings): (Outcome, Disk)
    requires |m.beyond| >= 32
  {
    if s.help then (Help, disk)
    else if !s.Hexadecimal() then (Thrown, disk)
    else if !s.Usable() then (Refused, disk)
    else
      var emptied := Truncated(disk, s.output);
      if s.input !in disk.files || !disk.writable(s.output) then (Refused, emptied)
      else
        var data := Data(m, s, emptied.files[s.input]);
        if data == [] then (Failed, emptied) else (Success, emptied.(files := emptied.files[s.output := data]))
  }

  /** The program on its arguments. */
  function Tool(m: Machine, disk: Disk, args: seq<string>): (Outcome, Disk)
    requires |m.beyond| >= 32
  {
    var parsed := ArgParse.Parse(args);
    if parsed.None? then (Thrown, disk) else Run(m, disk, SettingsOf(parsed.value))
  }

  // ------------------------------------------------------------------ the program

  class FileSystem {
    const writable: string -> bool
    var files: map<string, seq<Byte>>

    constructor (files: map<string, seq<Byte>>, writable: string -> bool)
      ensures State() == Disk(files, writable)
    {
      this.files, this.writable := files, writable;
    }

    ghost function State(): Disk
      reads this
    {
      Disk(files, writable)
    }
  }

  class File {
    const fs: FileSystem
    const path: string
    const writeMode: bool
    const good: bool

    /** Opens the path for reading, or for writing, which empties it. */
    constructor (fs: FileSystem, path: string, input: bool)
      modifies fs
      ensures this.fs == fs && this.path == path && writeMode == !input
      ensures good == if input then path in old(fs.files) else fs.writable(path)
      ensures fs.State() == if input then old(fs.State()) else Truncated(old(fs.State()), path)
    {
      this.fs, this.path, writeMode := fs, path, !input;
      good := if input then path in fs.files else fs.writable(path);
      new;
      if writeMode && good {
        fs.files := fs.files[path := []];
      }
    }

    method IsExists() returns (exists_: bool)
      ensures exists_ == good
    {
      exists_ := good;
    }

    method ReadBytes() returns (bytes: seq<Byte>)
      requires !writeMode ==> path in fs.files
      ensures bytes == if writeMode then [] else fs.files[path]
    {
      if writeMode {
        return [];
      }
      bytes := fs.files[path];
    }

    /** Writes from the start of a file that opening has emptied. */
    method WriteBytes(bytes: seq<Byte>)
      requires writeMode && good ==> path in fs.files && fs.files[path] == []
      modifies fs
      ensures fs.State() == if writeMode && good && bytes != [] then Disk(old(fs.files)[path := bytes], fs.writable)
                            else old(fs.State())
    {
      if !writeMode || bytes == [] || !good {
        return;
      }
      fs.files := fs.files[path := bytes];
    }
  }

  /** The main function. */
  method RunTool(m: Machine, fs: FileSystem, args: seq<string>) returns (outcome: Outcome)
    requires m.Valid()
    modifies fs
    ensures (outcome, fs.State()) == Tool(m, old(fs.State()), args)
  {
    var parser := new ArgParse.ArgParser();
    var ok := parser.ParseArguments(args);
    if !ok {
      return Thrown;
    }
    var s := ReadSettings(parser);
    outcome := RunSettings(m, fs, s);
  }

  /** The questions the program asks its parser. */
  method ReadSettings(parser: ArgParse.ArgParser) returns (s: Settings)
    ensures s == SettingsOf(parser.argMap)
  {
    hide ArgParse.Printed;
    var help := parser.Exists("--help");
    var h := parser.Exists("-h");
    var alg := DEFAULT_ALG;
    var given := parser.Exists("--alg");
    if given {
      alg := parser.GetParamStr("--alg");
    }
    var keyText := parser.GetParamStr("--key");
    var ivText := parser.GetParamStr("--iv");
    var isEncrypt := parser.Exists("-e");
    var isDecrypt := parser.Exists("-d");
    var input := parser.GetParamStr("-i");
    var output := parser.GetParamStr("-o");
    s := Settings(help || h, alg, keyText, ivText, isEncrypt, isDecrypt, input, output);
  }

  /** The checks before the files are opened. */
  method RunSettings(m: Machine, fs: FileSystem, s: Settings) returns (outcome: Outcome)
    requires m.Valid()
    modifies fs
    ensures (outcome, fs.State()) == Run(m, old(fs.State()), s)
  {
    hide Data, Truncated;
    if s.help {
      return Help;
    }
    var key := Hex.ParseHexStrToBin(s.keyText);
    var iv := Hex.ParseHexStrToBin(s.ivText);
    if key.None? || iv.None? {
      return Thrown;
    }
    if |key.value| < 16 || |iv.value| < 16 || s.encrypt == s.decrypt {
      return Refused;
    }
    outcome := Process(m, fs, s, key.value, iv.value);
  }

  /** From opening the files on. */
  method Process(m: Machine, fs: FileSystem, s: Settings, key: seq<Byte>, iv: seq<Byte>) returns (outcome: Outcome)
    requires m.Valid() && s.Usable() && s.Key() == key && s.Iv() == iv
    modifies fs
    ensures (outcome, fs.State()) == Run(m, old(fs.State()), s)
  {
    var fi := new File(fs, s.input, true);
    var fo := new File(fs, s.output, false);
    var readable := fi.IsExists();
    var writable := fo.IsExists();
    if !readable {
      return Refused;
    }
    if !writable {
      return Refused;
    }
    var data := fi.ReadBytes();
    var crypt := new Crypt(m);
    if s.encrypt {
      var e := new Encryptor(crypt);
      data := e.Encrypt(s.alg, data, key, iv);
    } else {
      var d := new Decryptor(crypt);
      data := d.Decrypt(s.alg, data, key, iv);
    }
    if data == [] {
      return Failed;
    }
    fo.WriteBytes(data);
    outcome := Success;
  }

  // ------------------------------------------------------------------ the command line

  /** What a list of options asks for: the last value of each name. */
  function OptionSettings(opts: seq<ArgParse.Opt>): Settings {
    Settings(ArgParse.Named(opts, "--help") || ArgParse.Named(opts, "-h"),
             if ArgParse.Named(opts, "--alg") then ArgParse.LastValue(opts, "--alg") else DEFAULT_ALG,
             ArgParse.LastValue(opts, "--key"), ArgParse.LastValue(opts, "--iv"),
             ArgParse.Named(opts, "-e"), ArgParse.Named(opts, "-d"),
             ArgParse.LastValue(opts, "-i"), ArgParse.LastValue(opts, "-o"))
  }

  ghost predicate ValidOptions(opts: seq<ArgParse.Opt>) {
    forall o :: o in opts ==> o.Valid()
  }

  /** On any list of options, in any order and with repetitions, the program does what the last
      value of each name says. */
  lemma CommandParsed(m: Machine, disk: Disk, opts: seq<ArgParse.Opt>)
    requires |m.beyond| >= 32 && ValidOptions(opts)
    ensures Tool(m, disk, ArgParse.Flatten(opts)) == Run(m, disk, OptionSettings(opts))
  {
    hide Run;
    var a := ArgParse.Entered(opts, map[]);
    ArgParse.ParseFlatten(opts);
    forall name ensures ArgParse.Value(a, name) == ArgParse.LastValue(opts, name)
      ensures name in a <==> ArgParse.Named(opts, name)
    {
      ArgParse.LastValueEntered(opts, name, map[]);
      ArgParse.EnteredNames(opts, map[], name);
    }
    assert "--alg" in a ==> ArgParse.Value(a, "--alg") == a["--alg"];
  }

  /** What the program does, in the order of its checks. */
  lemma RunIs(m: Machine, disk: Disk, s: Settings)
    requires |m.beyond| >= 32
    ensures var (outcome, after) := Run(m, disk, s);
      if s.help then outcome == Help && after == disk
      else if |s.keyText| % 2 == 1 || |s.ivText| % 2 == 1 then outcome == Thrown && after == disk
      else if |s.keyText| < 32 || |s.ivText| < 32 || (s.encrypt <==> s.decrypt) then outcome == Refused && after == disk
      else if !disk.writable(s.output) then outcome == Refused && after == disk
      else if s.input !in disk.files then outcome == Refused && after == disk.(files := disk.files[s.output := []])
      else
        var x := if s.input == s.output then [] else disk.files[s.input];
        var data := if s.encrypt then EncryptorOutput(m, s.alg, x, Hex.Parse(s.keyText), Hex.Parse(s.ivText))
                    else DecryptorOutput(m, s.alg, x, Hex.Parse(s.keyText), Hex.Parse(s.ivText));
        after == disk.(files := disk.files[s.output := data]) && outcome == if data == [] then Failed else Success
  {
    hide EncryptorOutput, DecryptorOutput, Hex.Parse;
  }

  /**
   What the names mean. With "-e" and not "-d", no request for help, a key and an IV of at least 16
   bytes in hexadecimal, the file at "-i" is encrypted into the file at "-o" under the algorithm
   after "--alg", aes-cfb-128 without one; with "-d" and not "-e" it is decrypted.
   */
  lemma NamesMean(m: Machine, disk: Disk, opts: seq<ArgParse.Opt>)
    requires |m.beyond| >= 32 && ValidOptions(opts)
    ensures var keyText, ivText := ArgParse.LastValue(opts, "--key"), ArgParse.LastValue(opts, "--iv");
      var input, output := ArgParse.LastValue(opts, "-i"), ArgParse.LastValue(opts, "-o");
      var alg := if ArgParse.Named(opts, "--alg") then ArgParse.LastValue(opts, "--alg") else "aes-cfb-128";
      var e, d := ArgParse.Named(opts, "-e"), ArgParse.Named(opts, "-d");
      var (outcome, after) := Tool(m, disk, ArgParse.Flatten(opts));
      if ArgParse.Named(opts, "--help") || ArgParse.Named(opts, "-h") then outcome == Help && after == disk
      else if |keyText| % 2 == 1 || |ivText| % 2 == 1 then outcome == Thrown && after == disk
      else if |keyText| < 32 || |ivText| < 32 || (e <==> d) then outcome == Refused && after == disk
      else if !disk.writable(output) then outcome == Refused && after == disk
      else if input !in disk.files then outcome == Refused && after == disk.(files := disk.files[output := []])
      else
        var x := if input == output then [] else disk.files[input];
        var key, iv := Hex.Parse(keyText), Hex.Parse(ivText);
        var data := if e then EncryptorOutput(m, alg, x, key, iv) else DecryptorOutput(m, alg, x, key, iv);
        after == disk.(files := disk.files[output := data]) && outcome == if data == [] then Failed else Success
  {
    CommandParsed(m, disk, opts);
    RunIs(m, disk, OptionSettings(opts));
    hide Tool, Run, EncryptorOutput, DecryptorOutput, ArgParse.LastValue, ArgParse.Named, ArgParse.Flatten, Hex.Parse;
  }

  // ------------------------------------------------------------------ what is left on the disk

  /** Two disks that differ at one path at most. */
  predicate SameElsewhere(a: Disk, b: Disk, path: string) {
    forall p :: p in a.files.Keys + b.files.Keys && p != path ==> p in a.files && p in b.files && a.files[p] == b.files[p]
  }

  /**
   Whatever the arguments are, only the output file changes. With usable ones and a path that can
   be written it holds something afterwards exactly when the program succeeded: a missing input
   and a failed operation leave it empty, whatever it held. Without a path for one of the two files
   nothing succeeds.
   */
  lemma OnlyOutputChanges(m: Machine, disk: Disk, s: Settings)
    requires |m.beyond| >= 32
    ensures SameElsewhere(disk, Run(m, disk, s).1, s.output)
    ensures !s.Usable() || !disk.writable(s.output) ==> Run(m, disk, s).1 == disk
    ensures s.Usable() && disk.writable(s.output) ==>
      var (outcome, after) := Run(m, disk, s);
      s.output in after.files && (after.files[s.output] != [] <==> outcome == Success)
    ensures disk.Valid() && (s.input == "" || s.output == "") ==> Run(m, disk, s).0 != Success
  {
  }

  /** Encryption succeeds exactly when the files can be emptied, a cipher can be set up, and what is
      then left of the input is short enough for it. */
  lemma EncryptsIff(m: Machine, disk: Disk, s: Settings)
    requires m.Valid() && s.Usable() && s.encrypt
    ensures Run(m, disk, s).0 == Success <==>
      && s.input in disk.files && disk.writable(s.output)
      && Initialise(m, s.alg, s.Key(), s.Iv()).Some?
      && (SelectMode(s.alg) == Some(AesXts) ==>
            |Padding.Pad(if s.input == s.output then [] else disk.files[s.input])| <= MAX_UNIT)
  {
    if s.input in disk.files && disk.writable(s.output) {
      EncryptorFailsIff(m, s.alg, if s.input == s.output then [] else disk.files[s.input], s.Key(), s.Iv());
    }
  }

  /** Nothing decrypts to nothing. */
  lemma DecryptsNothing(m: Machine, mode: string, key: seq<Byte>, iv: seq<Byte>)
    requires |m.beyond| >= 32
    ensures DecryptorOutput(m, mode, [], key, iv) == []
  {
    assert Output(m, false, mode, [], key, iv) == [];
  }

  /**
   Encrypting a file and then decrypting the result into a third path. The file is there again
   exactly when neither run reads and writes one path, or it was empty in the first place; the
   second run reports success exactly in the cases that are not empty.
   */
  lemma RunRoundTrip(m: Machine, m2: Machine, disk: Disk, e: Settings, d: Settings)
    requires m.Valid() && m2.Valid() && m2.zen && m2.expand == m.expand
    requires e.Usable() && e.encrypt && d.Usable() && d.decrypt
    requires d.alg == e.alg && d.Key() == e.Key() && d.Iv() == e.Iv() && d.input == e.output
    requires XtsKey(m, e.alg, e.Key()) ==> m2.beyond[..|e.Key()|] == m.beyond[..|e.Key()|]
    requires Run(m, disk, e).0 == Success && disk.writable(d.output)
    ensures e.input in disk.files && d.output in Run(m2, Run(m, disk, e).1, d).1.files
    ensures var x, apart := disk.files[e.input], e.input != e.output && d.input != d.output;
      var (outcome, after) := Run(m2, Run(m, disk, e).1, d);
      && (after.files[d.output] == x <==> apart || x == [])
      && (outcome == Success <==> apart && x != [])
  {
    var x := if e.input == e.output then [] else disk.files[e.input];
    FileRoundTrip(m, m2, e.alg, x, e.Key(), e.Iv());
    DecryptsNothing(m2, e.alg, e.Key(), e.Iv());
    var c := EncryptorOutput(m, e.alg, x, e.Key(), e.Iv());
    var y := if d.input == d.output then [] else c;
    hide EncryptorOutput, DecryptorOutput;
    assert m.(expand := m.expand) == m && m2.(expand := m.expand) == m2;
    assert Data(m2, d, y) == if d.input == d.output then [] else x;
  }

  /** The same from command line to command line. */
  lemma ToolRoundTrip(m: Machine, m2: Machine, disk: Disk, encrypting: seq<ArgParse.Opt>, decrypting: seq<ArgParse.Opt>)
    requires m.Valid() && m2.Valid() && m2.zen && m2.expand == m.expand
    requires ValidOptions(encrypting) && ValidOptions(decrypting)
    requires var e, d := OptionSettings(encrypting), OptionSettings(decrypting);
      && e.Usable() && e.encrypt && d.Usable() && d.decrypt
      && d.alg == e.alg && d.Key() == e.Key() && d.Iv() == e.Iv() && d.input == e.output
      && (XtsKey(m, e.alg, e.Key()) ==> m2.beyond[..|e.Key()|] == m.beyond[..|e.Key()|])
      && disk.writable(d.output)
    requires Tool(m, disk, ArgParse.Flatten(encrypting)).0 == Success
    ensures var e, d := OptionSettings(encrypting), OptionSettings(decrypting);
      var apart := e.input != e.output && d.input != d.output;
      var (outcome, after) := Tool(m2, Tool(m, disk, ArgParse.Flatten(encrypting)).1, ArgParse.Flatten(decrypting));
      && e.input in disk.files && d.output in after.files
      && (after.files[d.output] == disk.files[e.input] <==> apart || disk.files[e.input] == [])
      && (outcome == Success <==> apart && disk.files[e.input] != [])
  {
    hide Tool, Run, OptionSettings;
    CommandParsed(m, disk, encrypting);
    CommandParsed(m2, Tool(m, disk, ArgParse.Flatten(encrypting)).1, decrypting);
    RunRoundTrip(m, m2, disk, OptionSettings(encrypting), OptionSettings(decrypting));
  }
}
