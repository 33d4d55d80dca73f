/**
 * The command dispatch of run(): which command the arguments select, and
 * the request `dns add` builds from its flags.
 */
module Commands {
  import opened Wrappers
  import opened GoStrings
  import opened GoStrconv
  import opened Flags
  import opened Values

  const UnknownCommand: string := "unknown command. run: cf help"
  const ZonesAddUsage: string := "usage: cf zones add <domain>"

  /** isHelp: the three spellings of the help command. */
  predicate IsHelp(v: string)
  {
    v == "help" || v == "--help" || v == "-h"
  }

  /** What run() goes on to do with the command line. */
  datatype Command =
    | Help
    | Wizard
    | RegistrarList
    | ZonesList
    | ZonesAdd(domain: string)
    | DnsAdd(flagArgs: seq<string>)
    | Rejected(message: string)

  /**
   * run()'s dispatch on os.Args[1:]: no argument or a help word prints the
   * help; a recognised command is selected with its operands; everything
   * else, including `zones add` without a domain, is an error.
   */
  function Route(args: seq<string>): Command
  {
    if |args| == 0 || IsHelp(args[0]) then Help
    else if args[0] == "wizard" then Wizard
    else if args[0] == "registrar" && |args| > 1 && args[1] == "list" then RegistrarList
    else if args[0] == "zones" && |args| > 1 && args[1] == "list" then ZonesList
    else if args[0] == "zones" && |args| > 1 && args[1] == "add" then
      if |args| < 3 then Rejected(ZonesAddUsage) else ZonesAdd(args[2])
    else if args[0] == "dns" && |args| > 1 && args[1] == "add" then DnsAdd(args[2..])
    else Rejected(UnknownCommand)
  }

  /** The help text is printed exactly for no arguments or a leading help word. */
  lemma RouteHelp(args: seq<string>)
    ensures Route(args) == Help <==> |args| == 0 || IsHelp(args[0])
  {
  }

  /**
   * The operands reach their command unchanged: the domain of `zones add`
   * is the third argument (anything after it is ignored), and `dns add`
   * passes on everything after its second word.
   */
  lemma RouteOperands(args: seq<string>)
    requires |args| > 0 && !IsHelp(args[0])
    ensures Route(args).ZonesAdd? <==> |args| >= 3 && args[0] == "zones" && args[1] == "add"
    ensures Route(args).ZonesAdd? ==> Route(args).domain == args[2]
    ensures Route(args).DnsAdd? <==> |args| >= 2 && args[0] == "dns" && args[1] == "add"
    ensures Route(args).DnsAdd? ==> [args[0], args[1]] + Route(args).flagArgs == args
  {
    if |args| >= 2 && args[0] == "dns" && args[1] == "add" {
      assert [args[0], args[1]] + args[2..] == args;
    }
  }

  /**
   * Past the help check: `wizard` whatever follows, `registrar list`,
   * `zones list`, and `zones add` without a domain each select their case.
   */
  lemma RouteCommands(args: seq<string>)
    requires |args| > 0 && !IsHelp(args[0])
    ensures Route(args) == Wizard <==> args[0] == "wizard"
    ensures Route(args) == RegistrarList <==> |args| > 1 && args[0] == "registrar" && args[1] == "list"
    ensures Route(args) == ZonesList <==> |args| > 1 && args[0] == "zones" && args[1] == "list"
    ensures Route(args) == Rejected(ZonesAddUsage) <==> |args| == 2 && args[0] == "zones" && args[1] == "add"
  {
    assert ZonesAddUsage != UnknownCommand by { assert ZonesAddUsage[1] != UnknownCommand[1]; }
  }

  /**
   * The "unknown command" error is given exactly when no help word, no
   * `wizard` and none of the four two-word commands leads the arguments.
   */
  lemma RouteUnknown(args: seq<string>)
    ensures Route(args) == Rejected(UnknownCommand) <==>
      && |args| > 0 && !IsHelp(args[0]) && args[0] != "wizard"
      && !(|args| > 1 && [args[0], args[1]] in {["registrar", "list"], ["zones", "list"], ["zones", "add"], ["dns", "add"]})
  {
    assert ZonesAddUsage != UnknownCommand by { assert ZonesAddUsage[1] != UnknownCommand[1]; }
    if |args| > 1 {
      var pair := [args[0], args[1]];
      assert pair == ["registrar", "list"] <==> args[0] == "registrar" && args[1] == "list";
      assert pair == ["zones", "list"] <==> args[0] == "zones" && args[1] == "list";
      assert pair == ["zones", "add"] <==> args[0] == "zones" && args[1] == "add";
      assert pair == ["dns", "add"] <==> args[0] == "dns" && args[1] == "add";
    }
  }

  /** The record `dns add` creates. */
  datatype DnsRecordRequest = DnsRecordRequest(zone: string, recordType: string, name: string,
                                               content: string, ttl: int, proxied: bool)

  /** Why `dns add` refuses its flags. */
  datatype DnsAddError = InvalidTtl(cause: NumError) | MissingRequiredFlags

  /** A Go map index: the value, or "" for a missing key. */
  function Lookup(flags: map<string, string>, key: string): string
  {
    if key in flags then flags[key] else ""
  }

  /**
   * The `dns add` branch of run() after parseFlags: the type is upper-cased,
   * ttl defaults to 1 and proxied to false, a bad ttl is reported before
   * the required-flags check.
   */
  function DnsAddFromFlags(flags: map<string, string>): Result<DnsRecordRequest, DnsAddError>
  {
    var zone := Lookup(flags, "zone");
    var recordType := ToUpper(Lookup(flags, "type"));
    var name := Lookup(flags, "name");
    var content := Lookup(flags, "content");
    var (ttl, err) := ParseIntWithDefault(Lookup(flags, "ttl"), 1);
    var proxied := ParseBoolWithDefault(Lookup(flags, "proxied"), false);
    if err.Some? then Failure(InvalidTtl(err.value))
    else if zone == "" || recordType == "" || name == "" || content == "" then Failure(MissingRequiredFlags)
    else Success(DnsRecordRequest(zone, recordType, name, content, ttl, proxied))
  }

  /** The `dns add` branch of run(), from its arguments to the request or the error. */
  method ParseDnsAdd(flagArgs: seq<string>) returns (r: Result<DnsRecordRequest, DnsAddError>)
    ensures r == DnsAddFromFlags(Flags.Flags(flagArgs))
  {
    var flags := ParseFlags(flagArgs);
    var zone := Lookup(flags, "zone");
    var recordType := ToUpper(Lookup(flags, "type"));
    var name := Lookup(flags, "name");
    var content := Lookup(flags, "content");
    var (ttl, err) := ParseIntWithDefault(Lookup(flags, "ttl"), 1);
    if err.Some? {
      return Failure(InvalidTtl(err.value));
    }
    var proxied := ParseBoolWithDefault(Lookup(flags, "proxied"), false);
    if zone == "" || recordType == "" || name == "" || content == "" {
      return Failure(MissingRequiredFlags);
    }
    return Success(DnsRecordRequest(zone, recordType, name, content, ttl, proxied));
  }

  /**
   * `dns add` succeeds exactly when ttl is blank or a 64-bit decimal and all
   * four required flags are non-empty; a bad ttl wins over missing flags;
   * the request carries the flags as given (the type upper-cased), ttl 1
   * unless set, and proxied as a non-blank --proxied reads (true, yes in any
   * case, or 1), false otherwise.
   */
  lemma DnsAddMeaning(flags: map<string, string>)
    ensures var r := DnsAddFromFlags(flags);
      var t := Lookup(flags, "ttl");
      var p := Lookup(flags, "proxied");
      var ttlOk := AllSpace(t) || (IsDecimal(t) && MinInt64 <= DecimalValue(t) <= MaxInt64);
      var present := Lookup(flags, "zone") != "" && Lookup(flags, "type") != ""
                     && Lookup(flags, "name") != "" && Lookup(flags, "content") != "";
      && (r.Success? <==> ttlOk && present)
      && (!ttlOk ==> r.Failure? && r.error.InvalidTtl? && r.error.cause.num == t)
      && (ttlOk && !present ==> r == Failure(MissingRequiredFlags))
      && (r.Success? ==>
            && r.value.zone == Lookup(flags, "zone") && r.value.name == Lookup(flags, "name")
            && r.value.content == Lookup(flags, "content")
            && r.value.recordType == ToUpper(Lookup(flags, "type"))
            && EqualFold(r.value.recordType, Lookup(flags, "type"))
            && r.value.ttl == (if AllSpace(t) then 1 else DecimalValue(t))
            && (AllSpace(p) ==> !r.value.proxied)
            && (!AllSpace(p) ==> (r.value.proxied <==> EqualFold(p, "true") || EqualFold(p, "yes") || p == "1")))
  {
    var t := Lookup(flags, "ttl");
    if !AllSpace(t) {
      ParseIntMeaning(t, 1);
    }
    var ty := Lookup(flags, "type");
    EqualFoldToUpper(ty, ty);
    assert ToUpper(ty) == "" <==> ty == "";
  }

  /** Without --ttl and --proxied a record gets ttl 1 and is not proxied. */
  lemma DnsAddDefaults(flags: map<string, string>)
    requires "ttl" !in flags && "proxied" !in flags
    ensures var r := DnsAddFromFlags(flags); r.Success? ==> r.value.ttl == 1 && !r.value.proxied
  {
  }

  /**
   * A trailing --ttl=n, for any 64-bit n written in decimal, is never a bad
   * ttl, and sets the record's ttl to n.
   */
  lemma DnsAddTtlFlag(args: seq<string>, n: int)
    requires MinInt64 <= n <= MaxInt64
    ensures var r := DnsAddFromFlags(Flags.Flags(args + ["--ttl=" + FormatInt(n)]));
      && (r.Success? ==> r.value.ttl == n)
      && (r.Failure? ==> r.error == MissingRequiredFlags)
  {
    var v := FormatInt(n);
    assert "--ttl=" + v == "--" + "ttl" + "=" + v;
    AppendAssignment(args, "ttl", v);
    var flags := Flags.Flags(args + ["--ttl=" + v]);
    assert Lookup(flags, "ttl") == v;
    ParseIntFormatInt(n, 1);
    DnsAddValidTtl(flags, n);
  }

  /** A ttl that parses to n is never reported, and becomes the record's ttl. */
  lemma DnsAddValidTtl(flags: map<string, string>, n: int)
    requires ParseIntWithDefault(Lookup(flags, "ttl"), 1) == (n, None)
    ensures var r := DnsAddFromFlags(flags);
      && (r.Success? ==> r.value.ttl == n)
      && (r.Failure? ==> r.error == MissingRequiredFlags)
  {
  }
}
