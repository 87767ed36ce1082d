/**
 * OSM2GraphConfiguration: the settings `OSM2GraphTask` is built from, filled in by `add*`
 * convenience methods that interpret command-line text and by plain setters.
 */
module Configuration {
  import opened Wrappers
  import opened JavaString
  import opened WriterFactory

  /** The exceptions the configuration steps throw. */
  datatype ConfigError =
    | InternalError        // an output file added before the writer
    | OutputIsDirectory
    | OutputNotWritable
    | NullPointer          // a writer name that is null or unknown
    | MissingArgument      // a required task argument that is absent
    | NumberFormat         // a map id that does not parse

  /** What `java.io.File` reports about paths: the directories, the existing files and the writable ones. */
  datatype FileSystem = FileSystem(directories: set<string>, existing: set<string>, writable: set<string>)

  /** The path `addOutputFile` settles on: "." and the writer's extension appended when the path has no '.' at all. */
  function OutputPath(file: string, extension: string): (path: string)
    ensures |path| >= |file| && path[..|file|] == file
  {
    if LastIndexOf(file, '.') == -1 then file + "." + extension else file
  }

  /** The chosen path always has a '.'; a path that had one is kept as it is. */
  lemma OutputPathProperties(file: string, extension: string)
    ensures '.' in OutputPath(file, extension)
    ensures '.' in file ==> OutputPath(file, extension) == file
    ensures OutputPath(OutputPath(file, extension), extension) == OutputPath(file, extension)
  {
    if '.' !in file {
      assert (file + "." + extension)[|file|] == '.';
    }
  }

  /** A path without a '.' gets exactly the writer's extension after its last '.'. */
  lemma OutputPathExtension(file: string, extension: string)
    requires '.' !in file && '.' !in extension
    ensures var path := OutputPath(file, extension);
      LastIndexOf(path, '.') == |file| && path[|file| + 1..] == extension
  {
    var path := file + "." + extension;
    assert path == (file + ".") + extension;
    LastIndexOfAppend(file + ".", extension, '.');
    assert path[|file| + 1..] == extension;
  }

  /** The checks on the chosen path: not a directory, and writable if it exists. */
  function CheckOutput(path: string, fs: FileSystem): (r: Result<(), ConfigError>)
    ensures r.Ok? <==> path !in fs.directories && (path in fs.existing ==> path in fs.writable)
  {
    if path in fs.directories then Err(OutputIsDirectory)
    else if path in fs.existing && path !in fs.writable then Err(OutputNotWritable)
    else Ok(())
  }

  class OSM2GraphConfiguration {
    /** The bounding-box text; BoundingBox.fromString is not part of this model. */
    var bboxConfiguration: Option<string>
    var outputFile: Option<string>
    var preferredLanguages: Option<seq<string>>
    var writerVersion: Option<string>
    var writer: Option<WriterKind>
    var threads: int
    var mapId: int

    /** The defaults: nothing set, no threads yet, map id -1. */
    constructor ()
      ensures bboxConfiguration.None? && outputFile.None? && preferredLanguages.None?
      ensures writerVersion.None? && writer.None? && threads == 0 && mapId == -1
    {
      bboxConfiguration := None;
      outputFile := None;
      preferredLanguages := None;
      writerVersion := None;
      writer := None;
      threads := 0;
      mapId := -1;
    }

    /** addBboxConfiguration: a null argument changes nothing. */
    method AddBboxConfiguration(bbox: Option<string>)
      modifies this
      ensures bboxConfiguration == if bbox.Some? then bbox else old(bboxConfiguration)
      ensures outputFile == old(outputFile) && preferredLanguages == old(preferredLanguages)
      ensures writerVersion == old(writerVersion) && writer == old(writer)
      ensures threads == old(threads) && mapId == old(mapId)
    {
      if bbox.Some? {
        bboxConfiguration := bbox;
      }
    }

    /**
     * addOutputFile: fails before anything else without a writer; a null file changes
     * nothing; otherwise the path gets the writer's extension when it has no '.', and is
     * set unless it is a directory or an existing file that cannot be written.
     */
    method AddOutputFile(file: Option<string>, fs: FileSystem) returns (r: Result<(), ConfigError>)
      modifies this
      ensures old(writer).None? ==> r == Err(InternalError)
      ensures old(writer).Some? && file.None? ==> r == Ok(())
      ensures old(writer).Some? && file.Some? ==>
        r == CheckOutput(OutputPath(file.value, DefaultExtension(old(writer).value)), fs)
      ensures outputFile == if old(writer).Some? && file.Some? && r.Ok?
                            then Some(OutputPath(file.value, DefaultExtension(old(writer).value)))
                            else old(outputFile)
      ensures bboxConfiguration == old(bboxConfiguration) && preferredLanguages == old(preferredLanguages)
      ensures writerVersion == old(writerVersion) && writer == old(writer)
      ensures threads == old(threads) && mapId == old(mapId)
    {
      if writer.None? {
        return Err(InternalError);
      }
      if file.Some? {
        var path := file.value;
        if LastIndexOf(path, '.') == -1 {
          path := path + "." + DefaultExtension(writer.value);
        }
        if path in fs.directories {
          return Err(OutputIsDirectory);
        } else if path in fs.existing && path !in fs.writable {
          return Err(OutputNotWritable);
        }
        outputFile := Some(path);
      }
      r := Ok(());
    }

    /**
     * addGraphWriter: the factory's lookup. An unknown name throws inside the factory, so the
     * "unrecognized writer" branch after it is never reached.
     */
    method AddGraphWriter(writerType: Option<string>) returns (r: Result<(), ConfigError>)
      modifies this
      ensures r.Ok? <==> GraphWriterFromName(writerType).Ok?
      ensures r.Err? ==> r.error == ConfigError.NullPointer
      ensures writer == if r.Ok? then Some(GraphWriterFromName(writerType).value) else old(writer)
      ensures bboxConfiguration == old(bboxConfiguration) && preferredLanguages == old(preferredLanguages)
      ensures writerVersion == old(writerVersion) && outputFile == old(outputFile)
      ensures threads == old(threads) && mapId == old(mapId)
    {
      var found := GraphWriterFromName(writerType);
      if found.Err? {
        return Err(ConfigError.NullPointer);
      }
      writer := Some(found.value);
      r := Ok(());
    }

    /** addPreferredLanguages: null or blank text changes nothing; otherwise the text split at ','. */
    method AddPreferredLanguages(languages: Option<string>)
      modifies this
      ensures preferredLanguages ==
        if languages.Some? && !IsBlank(languages.value) then Some(Split(languages.value, ','))
        else old(preferredLanguages)
      ensures bboxConfiguration == old(bboxConfiguration) && outputFile == old(outputFile)
      ensures writerVersion == old(writerVersion) && writer == old(writer)
      ensures threads == old(threads) && mapId == old(mapId)
    {
      if languages.Some? && !IsBlank(languages.value) {
        preferredLanguages := Some(Split(languages.value, ','));
      }
    }

    method SetMapId(id: int)
      modifies this
      ensures mapId == id
      ensures bboxConfiguration == old(bboxConfiguration) && outputFile == old(outputFile)
      ensures preferredLanguages == old(preferredLanguages) && writerVersion == old(writerVersion)
      ensures writer == old(writer) && threads == old(threads)
    {
      mapId := id;
    }

    method SetThreads(n: int)
      modifies this
      ensures threads == n
      ensures bboxConfiguration == old(bboxConfiguration) && outputFile == old(outputFile)
      ensures preferredLanguages == old(preferredLanguages) && writerVersion == old(writerVersion)
      ensures writer == old(writer) && mapId == old(mapId)
    {
      threads := n;
    }

    /** validate: accepts every configuration and changes nothing. */
    method Validate() returns (r: Result<(), ConfigError>)
      ensures r == Ok(())
    {
      r := Ok(());
    }
  }
}
