/**
 * OSM2GraphFactory: the map id's radix chosen by its prefix, and the configuration built
 * from the Osmosis task arguments with their defaults.
 */
module Osm2GraphFactory {
  import opened Wrappers
  import opened JavaString
  import opened WriterFactory
  import opened Configuration

  const DEFAULT_THREADS: int := 1
  /** Constants.DEFAULT_PARAM_OUTFILE, the default actually passed for the output file. */
  const DEFAULT_OUTFILE: string := "osm2graph.mapgr"

  /**
   * parseMapId: "0x" selects base 16 and "0b" base 2 on the rest, any other leading '0'
   * base 8 on the rest, anything else base 10; then Integer.parseUnsignedInt.
   */
  function ParseMapId(mapId: string): (r: Option<int>)
    ensures r.Some? ==> INT_MIN <= r.value <= INT_MAX
  {
    if |mapId| >= 2 && mapId[..2] == "0x" then ParseUnsignedInt(mapId[2..], 16)
    else if |mapId| >= 2 && mapId[..2] == "0b" then ParseUnsignedInt(mapId[2..], 2)
    else if |mapId| >= 1 && mapId[0] == '0' then ParseUnsignedInt(mapId[1..], 8)
    else ParseUnsignedInt(mapId, 10)
  }

  /** Digits of `radix` whose value fits in 32 bits, as an unsigned parse accepts them. */
  predicate Numeral(digits: string, radix: nat)
    requires 2 <= radix <= 36
  {
    digits != "" && AllDigits(digits, radix) && DigitsValue(digits, radix) <= 0xffff_ffff
  }

  /** "0x" followed by hexadecimal digits is their value, as a signed 32-bit int. */
  lemma HexMapId(digits: string)
    requires Numeral(digits, 16)
    ensures ParseMapId("0x" + digits) == Some(ToInt32(DigitsValue(digits, 16)))
  {
    var s := "0x" + digits;
    assert s[..2] == "0x" && s[2..] == digits;
    ParseUnsignedIntValue(digits, 16);
  }

  /** "0b" followed by binary digits is their value: the binary case is tried before the octal one. */
  lemma BinaryMapId(digits: string)
    requires Numeral(digits, 2)
    ensures ParseMapId("0b" + digits) == Some(ToInt32(DigitsValue(digits, 2)))
  {
    var s := "0b" + digits;
    assert s[..2] == "0b" && s[2..] == digits;
    ParseUnsignedIntValue(digits, 2);
  }

  /** '0' followed by octal digits is their value. */
  lemma OctalMapId(digits: string)
    requires Numeral(digits, 8)
    ensures ParseMapId("0" + digits) == Some(ToInt32(DigitsValue(digits, 8)))
  {
    var s := "0" + digits;
    assert s[1..] == digits && s[0] == '0';
    assert DigitValue(digits[0], 8) >= 0;
    assert s[..2] != "0x" && s[..2] != "0b" by {
      assert s[..2][1] == digits[0];
    }
    ParseUnsignedIntValue(digits, 8);
  }

  /** A decimal numeral that does not start with '0' is its value. */
  lemma DecimalMapId(digits: string)
    requires Numeral(digits, 10) && digits[0] != '0'
    ensures ParseMapId(digits) == Some(ToInt32(DigitsValue(digits, 10)))
  {
    assert |digits| >= 2 ==> digits[..2][0] == digits[0];
    ParseUnsignedIntValue(digits, 10);
  }

  /** "0" alone leaves nothing to parse in base 8, and so do "0x" and "0b" alone; a sign '-' is refused. */
  lemma EmptyRestFails(digits: string)
    ensures ParseMapId("0") == None && ParseMapId("0x") == None && ParseMapId("0b") == None
    ensures ParseMapId("-" + digits) == None
  {
    assert "0"[1..] == "";
    assert "0x"[..2] == "0x" && "0x"[2..] == "";
    assert "0b"[..2] == "0b" && "0b"[2..] == "";
    var s := "-" + digits;
    assert s[0] == '-';
    assert |s| >= 2 ==> s[..2][0] == '-';
  }

  /** The Osmosis task arguments the factory reads; an absent one is None. */
  datatype TaskArguments = TaskArguments(
    writer: Option<string>, file: Option<string>, bbox: Option<string>,
    preferredLanguages: Option<string>, mapId: Option<string>, threads: Option<int>)

  /** The value of an optional argument, or its default. */
  function ArgumentOr<T>(arg: Option<T>, default: T): (v: T)
    ensures arg.Some? ==> v == arg.value
    ensures arg.None? ==> v == default
  {
    if arg.Some? then arg.value else default
  }

  /**
   * createTaskManagerImpl's configuration steps in their order: the writer (default
   * "insa2018"), the output file (default "osm2graph.mapgr"), the bounding box, the
   * languages, the required map id, the threads (default 1), then validate.
   */
  method CreateConfiguration(args: TaskArguments, fs: FileSystem) returns (r: Result<OSM2GraphConfiguration, ConfigError>)
    ensures GraphWriterFromName(Some(ArgumentOr(args.writer, DEFAULT_WRITER))).Err? ==> r == Err(ConfigError.NullPointer)
    ensures r.Ok? ==> fresh(r.value)
    ensures r.Ok? ==>
      && r.value.writer == Some(GraphWriterFromName(Some(ArgumentOr(args.writer, DEFAULT_WRITER))).value)
      && r.value.outputFile == Some(OutputPath(ArgumentOr(args.file, DEFAULT_OUTFILE), DefaultExtension(r.value.writer.value)))
      && r.value.bboxConfiguration == args.bbox
      && r.value.preferredLanguages ==
           (if args.preferredLanguages.Some? && !IsBlank(args.preferredLanguages.value)
            then Some(Split(args.preferredLanguages.value, ',')) else None)
      && args.mapId.Some? && ParseMapId(args.mapId.value) == Some(r.value.mapId)
      && r.value.threads == ArgumentOr(args.threads, DEFAULT_THREADS)
    ensures var found := GraphWriterFromName(Some(ArgumentOr(args.writer, DEFAULT_WRITER)));
      found.Ok? ==>
        var checked := CheckOutput(OutputPath(ArgumentOr(args.file, DEFAULT_OUTFILE), DefaultExtension(found.value)), fs);
        && (checked.Err? ==> r == Err(checked.error))
        && (checked.Ok? && args.mapId.None? ==> r == Err(MissingArgument))
        && (checked.Ok? && args.mapId.Some? && ParseMapId(args.mapId.value).None? ==> r == Err(NumberFormat))
        && (r.Ok? <==> checked.Ok? && args.mapId.Some? && ParseMapId(args.mapId.value).Some?)
  {
    var configuration := new OSM2GraphConfiguration();
    var step := configuration.AddGraphWriter(Some(ArgumentOr(args.writer, DEFAULT_WRITER)));
    if step.Err? {
      return Err(step.error);
    }
    step := configuration.AddOutputFile(Some(ArgumentOr(args.file, DEFAULT_OUTFILE)), fs);
    if step.Err? {
      return Err(step.error);
    }
    configuration.AddBboxConfiguration(args.bbox);
    configuration.AddPreferredLanguages(args.preferredLanguages);
    if args.mapId.None? {
      return Err(MissingArgument);
    }
    var mapId := ParseMapId(args.mapId.value);
    if mapId.None? {
      return Err(NumberFormat);
    }
    configuration.SetMapId(mapId.value);
    configuration.SetThreads(ArgumentOr(args.threads, DEFAULT_THREADS));
    step := configuration.Validate();
    r := Ok(configuration);
  }
}
