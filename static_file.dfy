/**
 * writeStaticFile (gen-apidocs/generators/writer.go): put a section's
 * static page in the includes directory, by linking the hand-written page
 * when there is one and by creating a page holding the default content
 * otherwise. The file system is a map from path to content; the errors
 * the operating system may report are parameters.
 */
module StaticFile {
  import opened Naming

  /**
   * What the operating system reports besides what the map decides:
   * `statError` is a stat failure other than "does not exist", `linkError`
   * an os.Link failure other than an existing target (another device, no
   * includes directory), `createError` a failing os.Create, `openError` a
   * failing os.OpenFile.
   */
  datatype Faults = Faults(statError: bool, linkError: bool, createError: bool, openError: bool)

  const NoFaults := Faults(false, false, false, false)

  /**
   * How the call ended: os.Link was called, whether or not it made the
   * link (its error is ignored), a page was created and filled, a page was
   * created but could not be opened for writing and stays empty, or the
   * program panicked.
   */
  datatype Outcome = Linked | Created | CreatedEmpty | Panicked

  /** The outcome of writeStaticFile and the file system it leaves, copying `fn` to `to`. */
  function StaticFileEffect(files: map<string, string>, fn: string, to: string, defaultContent: string, faults: Faults): (r: (Outcome, map<string, string>))
    ensures forall k :: k != to ==> (k in r.1 <==> k in files)
    ensures forall k :: k != to && k in files ==> r.1[k] == files[k]
    ensures r.0 == Panicked ==> r.1 == files
  {
    if !faults.statError && fn in files then
      // os.Link fails, and is ignored, when the target exists or the link cannot be made
      (Linked, if to in files || faults.linkError then files else files[to := files[fn]])
    else if faults.statError then
      (Panicked, files)
    else if faults.createError then
      (Panicked, files)
    else if faults.openError then
      (CreatedEmpty, files[to := ""])
    else
      (Created, files[to := defaultContent])
  }

  /** The file system writeStaticFile works on. */
  class FileSystem {
    /** Every regular file, by path, with its content. */
    var files: map<string, string>

    constructor (files: map<string, string>)
      ensures this.files == files
    {
      this.files := files;
    }

    /**
     * writeStaticFile(title, location, defaultContent) for the sections
     * directory `sectionsDir` and the includes directory `includesDir`.
     * The title the source takes is never used, so it is not a parameter.
     */
    method WriteStaticFile(sectionsDir: string, includesDir: string, location: string, defaultContent: string, faults: Faults)
      returns (o: Outcome)
      modifies this
      ensures (o, files) == StaticFileEffect(old(files), PathJoin(sectionsDir, location), PathJoin(includesDir, location), defaultContent, faults)
    {
      var fn := PathJoin(sectionsDir, location);
      var to := PathJoin(includesDir, location);
      // os.Stat(fn)
      var statOk := !faults.statError && fn in files;
      var notExist := !faults.statError && fn !in files;
      if statOk {
        // os.Link(fn, to), its error ignored
        if to !in files && !faults.linkError {
          files := files[to := files[fn]];
        }
        return Linked;
      }
      if !notExist {
        return Panicked;
      }
      // os.Create(to)
      if faults.createError {
        return Panicked;
      }
      files := files[to := ""];
      // os.OpenFile(to, os.O_WRONLY, 0)
      if faults.openError {
        return CreatedEmpty;
      }
      ghost var empty := files;
      files := files[to := defaultContent];
      assert files == old(files)[to := defaultContent] by {
        assert empty == old(files)[to := ""];
      }
      return Created;
    }
  }

  /**
   * When the hand-written page exists it is linked: the default content is
   * never written. When the link can be made the target holds the
   * hand-written page unless it already existed; when it cannot, nothing
   * changes and the call still returns normally.
   */
  lemma SourceExistsIsLinked(files: map<string, string>, fn: string, to: string, defaultContent: string, faults: Faults)
    requires fn in files && !faults.statError
    ensures StaticFileEffect(files, fn, to, defaultContent, faults).0 == Linked
    ensures faults.linkError ==> StaticFileEffect(files, fn, to, defaultContent, faults).1 == files
    ensures !faults.linkError ==> to in StaticFileEffect(files, fn, to, defaultContent, faults).1
    ensures !faults.linkError ==>
      StaticFileEffect(files, fn, to, defaultContent, faults).1[to] == if to in files then files[to] else files[fn]
  {
  }

  /**
   * When it does not exist and nothing fails, the includes directory gets a
   * page holding exactly the default content.
   */
  lemma SourceAbsentIsCreated(files: map<string, string>, fn: string, to: string, defaultContent: string)
    requires fn !in files
    ensures StaticFileEffect(files, fn, to, defaultContent, NoFaults) == (Created, files[to := defaultContent])
  {
  }

  /** Any other stat error panics and changes nothing. */
  lemma StatErrorPanics(files: map<string, string>, fn: string, to: string, defaultContent: string, faults: Faults)
    requires faults.statError
    ensures StaticFileEffect(files, fn, to, defaultContent, faults) == (Panicked, files)
  {
  }

  /**
   * The program panics exactly on a stat error or on a failing create of a
   * missing page. Otherwise the target exists afterwards, unless a link
   * that could not be made left it missing: the one way the call returns
   * normally without a target.
   */
  lemma TargetExistsUnlessPanicked(files: map<string, string>, fn: string, to: string, defaultContent: string, faults: Faults)
    ensures var r := StaticFileEffect(files, fn, to, defaultContent, faults);
      r.0 == Panicked <==> faults.statError || (fn !in files && faults.createError)
    ensures var r := StaticFileEffect(files, fn, to, defaultContent, faults);
      r.0 != Panicked && to !in r.1 <==> r.0 == Linked && faults.linkError && to !in files
  {
  }

  /**
   * Without faults, writing the same static page twice leaves the same
   * files as writing it once, even when the two directories coincide.
   */
  lemma StaticFileIdempotent(files: map<string, string>, fn: string, to: string, defaultContent: string)
    ensures var once := StaticFileEffect(files, fn, to, defaultContent, NoFaults).1;
      StaticFileEffect(once, fn, to, defaultContent, NoFaults).1 == once
  {
  }
}
