/** The command-line parser of filecrypt.cc. */
module ArgParse {
  import opened Errors

  type Arguments = map<string, string>

  /**
   What the loop makes of the remaining arguments, `s0` being the option name in hand. An empty
   argument in the place of a value throws, which is None.
   */
  function ParseFrom(s0: string, rest: seq<string>, m: Arguments): Option<Arguments>
    decreases |rest|
  {
    if rest == [] then Some(if s0 != "" then m[s0 := ""] else m)
    else if rest[0] == "" then None
    else if rest[0][0] != '-' then
      if |rest| == 1 then Some(m[s0 := rest[0]]) else ParseFrom(rest[1], rest[2..], m[s0 := rest[0]])
    else ParseFrom(rest[0], rest[1..], m[s0 := ""])
  }

  function Parse(args: seq<string>): Option<Arguments> {
    if args == [] then Some(map[]) else ParseFrom(args[0], args[1..], map[])
  }

  class ArgParser {
    var argMap: Arguments

    constructor ()
      ensures argMap == map[]
    {
      argMap := map[];
    }

    /** The arguments after the program name; false when the parser throws. */
    method ParseArguments(args: seq<string>) returns (ok: bool)
      requires argMap == map[]
      modifies this
      ensures ok == Parse(args).Some? && (ok ==> argMap == Parse(args).value)
    {
      if args == [] {
        return true;
      }
      var s0, i := args[0], 1;
      while i < |args|
        invariant i >= 1 && (if i <= |args| then ParseFrom(s0, args[i..], argMap) == Parse(args)
                             else s0 == "" && Some(argMap) == Parse(args))
        decreases |args| - i
      {
        var s1 := args[i];
        ghost var rest := args[i..];
        if s1 == "" {
          return false;
        }
        if s1[0] != '-' {
          argMap := argMap[s0 := s1];
          s0, i := "", i + 1;
          if i < |args| {
            s0 := args[i];
            assert rest[2..] == args[i + 1..];
          }
        } else {
          argMap := argMap[s0 := ""];
          s0 := s1;
          assert rest[1..] == args[i + 1..];
        }
        i := i + 1;
      }
      if s0 != "" {
        argMap := argMap[s0 := ""];
      }
      ok := true;
    }

    method Exists(param: string) returns (given: bool)
      ensures given <==> param in argMap
    {
      given := param in argMap;
    }

    /** The value given for a name; the empty string when there is none. */
    method GetParamStr(param: string) returns (v: string)
      ensures param in argMap ==> v == argMap[param]
      ensures param !in argMap ==> v == ""
      ensures forall opts :: Printed(opts, argMap) ==> v == LastValue(opts, param)
    {
      forall opts | Printed(opts, argMap)
        ensures Value(argMap, param) == LastValue(opts, param)
      {
        ParamOfOptions(opts, param);
      }
      if param !in argMap {
        return "";
      }
      v := argMap[param];
    }
  }

  /** There is an option of this name. */
  predicate Named(opts: seq<Opt>, name: string) {
    exists i :: 0 <= i < |opts| && opts[i].name == name
  }

  /** The names entered are those of the options. */
  lemma {:induction false} EnteredNames(opts: seq<Opt>, m: Arguments, name: string)
    ensures name in Entered(opts, m) <==> name in m || Named(opts, name)
    decreases |opts|
  {
    if opts != [] {
      var rest := opts[1..];
      EnteredNames(rest, m[opts[0].name := opts[0].value], name);
      assert forall i :: 0 <= i < |rest| ==> rest[i] == opts[i + 1];
      if Named(opts, name) && opts[0].name != name {
        var i :| 0 <= i < |opts| && opts[i].name == name;
        assert rest[i - 1].name == name;
      }
    }
  }

  function Value(m: Arguments, param: string): string {
    if param in m then m[param] else ""
  }

  // ------------------------------------------------------------------ parsing undoes printing

  /** An option: a name with a leading dash and a value, empty for none, without one. */
  datatype Opt = Opt(name: string, value: string) {
    predicate Valid() {
      name != "" && name[0] == '-' && (value == "" || value[0] != '-')
    }
  }

  /** The map is what parsing the printed form of these options gives. */
  predicate Printed(opts: seq<Opt>, m: Arguments) {
    (forall o :: o in opts ==> o.Valid()) && Parse(Flatten(opts)) == Some(m)
  }

  function Flatten(opts: seq<Opt>): seq<string> {
    if opts == [] then [] else [opts[0].name] + (if opts[0].value == "" then [] else [opts[0].value]) + Flatten(opts[1..])
  }

  /** Each option in turn enters its value; a later one replaces an earlier one. */
  function Entered(opts: seq<Opt>, m: Arguments): Arguments
    decreases |opts|
  {
    if opts == [] then m else Entered(opts[1..], m[opts[0].name := opts[0].value])
  }

  lemma {:induction false} ParseFlattened(opts: seq<Opt>, m: Arguments)
    requires opts != [] && forall o :: o in opts ==> o.Valid()
    ensures Flatten(opts) != [] && Flatten(opts)[0] == opts[0].name
    ensures ParseFrom(opts[0].name, Flatten(opts)[1..], m) == Some(Entered(opts, m))
    decreases |opts|
  {
    var o, rest, args := opts[0], opts[1..], Flatten(opts)[1..];
    var m' := m[o.name := o.value];
    assert o.Valid();
    if rest != [] {
      ParseFlattened(rest, m');
      assert rest[0] in opts && rest[0].Valid();
    }
    if o.value == "" {
      assert args == Flatten(rest);
    } else {
      assert args == [o.value] + Flatten(rest);
      if rest != [] {
        assert args[1] == rest[0].name && args[2..] == Flatten(rest)[1..];
      }
    }
  }

  /** Any arguments as names with values: an argument takes the next one for its value unless that
      starts with a dash. */
  function Options(args: seq<string>): (opts: seq<Opt>)
    decreases |args|
  {
    if args == [] then []
    else if |args| == 1 || args[1] == "" || args[1][0] == '-' then [Opt(args[0], "")] + Options(args[1..])
    else [Opt(args[0], args[1])] + Options(args[2..])
  }

  /** Without empty arguments the parser enters what it is given, whatever that is. */
  lemma {:induction false} ParseAll(args: seq<string>)
    requires forall i :: 0 <= i < |args| ==> args[i] != ""
    ensures Flatten(Options(args)) == args && Parse(args) == Some(Entered(Options(args), map[]))
    ensures forall i :: 0 <= i < |Options(args)| ==> Options(args)[i].value == "" || Options(args)[i].value[0] != '-'
  {
    FlattenOptions(args);
    if args != [] {
      ParseRest(args, map[]);
    }
  }

  lemma FlattenHead(o: Opt, rest: seq<Opt>)
    ensures Flatten([o] + rest) == [o.name] + (if o.value == "" then [] else [o.value]) + Flatten(rest)
  {
    assert ([o] + rest)[1..] == rest;
  }

  lemma {:induction false} FlattenOptions(args: seq<string>)
    requires forall i :: 0 <= i < |args| ==> args[i] != ""
    ensures Flatten(Options(args)) == args
    ensures forall i :: 0 <= i < |Options(args)| ==> Options(args)[i].value == "" || Options(args)[i].value[0] != '-'
    decreases |args|
  {
    if args != [] {
      hide Flatten;
      if |args| == 1 || args[1][0] == '-' {
        FlattenOptions(args[1..]);
        FlattenHead(Opt(args[0], ""), Options(args[1..]));
      } else {
        FlattenOptions(args[2..]);
        FlattenHead(Opt(args[0], args[1]), Options(args[2..]));
        assert args == [args[0]] + [args[1]] + args[2..];
      }
    }
  }

  lemma {:induction false} ParseRest(args: seq<string>, m: Arguments)
    requires args != [] && forall i :: 0 <= i < |args| ==> args[i] != ""
    ensures ParseFrom(args[0], args[1..], m) == Some(Entered(Options(args), m))
    decreases |args|
  {
    var opts := Options(args);
    if |args| == 1 || args[1][0] == '-' {
      assert opts[1..] == Options(args[1..]);
      if |args| > 1 {
        ParseRest(args[1..], m[args[0] := ""]);
      }
    } else {
      assert opts[1..] == Options(args[2..]) && args[1..][1..] == args[2..];
      if |args| > 2 {
        ParseRest(args[2..], m[args[0] := args[1]]);
        assert args[1..][2..] == args[2..][1..];
      }
    }
  }

  /** Parsing the printed form of a list of options gives the last value of each. */
  lemma ParseFlatten(opts: seq<Opt>)
    requires forall o :: o in opts ==> o.Valid()
    ensures Parse(Flatten(opts)) == Some(Entered(opts, map[]))
  {
    if opts != [] {
      ParseFlattened(opts, map[]);
    }
  }

  lemma {:induction false} EnteredLast(opts: seq<Opt>, m: Arguments, i: nat)
    requires i < |opts| && forall j :: i < j < |opts| ==> opts[j].name != opts[i].name
    ensures opts[i].name in Entered(opts, m) && Entered(opts, m)[opts[i].name] == opts[i].value
    decreases |opts|
  {
    if i == 0 {
      EnteredOther(opts[1..], m[opts[0].name := opts[0].value], opts[0].name);
    } else {
      EnteredLast(opts[1..], m[opts[0].name := opts[0].value], i - 1);
    }
  }

  /** The value of the last option of a name; the empty string when there is none. */
  function LastValue(opts: seq<Opt>, name: string): string
    decreases |opts|
  {
    if opts == [] then ""
    else if opts[|opts| - 1].name == name then opts[|opts| - 1].value
    else LastValue(opts[..|opts| - 1], name)
  }

  lemma {:induction false} LastValueEntered(opts: seq<Opt>, name: string, m: Arguments)
    requires name in m ==> m[name] == ""
    ensures Value(Entered(opts, m), name) == LastValue(opts, name)
    decreases |opts|
  {
    if opts != [] {
      var init, last := opts[..|opts| - 1], opts[|opts| - 1];
      EnteredSnoc(init, last, m);
      assert opts == init + [last];
      LastValueEntered(init, name, m);
    }
  }

  lemma {:induction false} EnteredSnoc(init: seq<Opt>, last: Opt, m: Arguments)
    ensures Entered(init + [last], m) == Entered(init, m)[last.name := last.value]
    decreases |init|
  {
    if init == [] {
      assert init + [last] == [last] && [last][1..] == [];
    } else {
      assert (init + [last])[1..] == init[1..] + [last];
      EnteredSnoc(init[1..], last, m[init[0].name := init[0].value]);
    }
  }

  /** Asking for a name after parsing printed options gives the value of the last option of it. */
  lemma ParamOfOptions(opts: seq<Opt>, name: string)
    requires forall o :: o in opts ==> o.Valid()
    ensures Parse(Flatten(opts)).Some? && Value(Parse(Flatten(opts)).value, name) == LastValue(opts, name)
  {
    ParseFlatten(opts);
    LastValueEntered(opts, name, map[]);
  }

  lemma {:induction false} EnteredOther(opts: seq<Opt>, m: Arguments, name: string)
    requires forall j :: 0 <= j < |opts| ==> opts[j].name != name
    ensures name in Entered(opts, m) <==> name in m
    ensures name in m ==> Entered(opts, m)[name] == m[name]
    decreases |opts|
  {
    if opts != [] {
      EnteredOther(opts[1..], m[opts[0].name := opts[0].value], name);
    }
  }

  /** With non-empty arguments the parser never throws and the empty name is never entered. */
  lemma {:induction false} NoEmptyName(s0: string, rest: seq<string>, m: Arguments)
    requires s0 != "" && "" !in m && forall i :: 0 <= i < |rest| ==> rest[i] != ""
    ensures ParseFrom(s0, rest, m).Some? && "" !in ParseFrom(s0, rest, m).value
    decreases |rest|
  {
    if rest != [] {
      if rest[0][0] == '-' {
        NoEmptyName(rest[0], rest[1..], m[s0 := ""]);
      } else if |rest| > 1 {
        NoEmptyName(rest[1], rest[2..], m[s0 := rest[0]]);
      }
    }
  }
}
