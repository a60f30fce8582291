/** The registry document and the handle through which one caller at a time changes it. */
module Registry {
  import opened Wrappers

  type Key = string

  /** A `created_at` text: the instant it parses to, or a text that does not parse. */
  datatype Stamp = At(nanos: int) | Unparseable(text: string)

  /** The absolute paths the registry stores: those below the data root by what they are,
      for keys that are single path components, and any other. */
  datatype Place =
    | Lower(base: Key) | Meta(base: Key) | CacheLower(base: Key, name: string)
    | Upper(fork: Key) | Work(fork: Key) | Merged(fork: Key)
    | Elsewhere(path: string)

  datatype BaseEntry = BaseEntry(lowerPath: Place, metaPath: Place, createdAt: Stamp, cacheLowerPaths: seq<Place>)

  datatype QuotaMode = Soft | Hard

  datatype ForkEntry = ForkEntry(
    baseKey: Key,
    upperPath: Place,
    workPath: Place,
    mergedPath: Option<Place>,
    quotaBytes: Option<nat>,
    quotaMode: QuotaMode,
    createdAt: Stamp,
    labels: map<string, string>)

  datatype Doc = Doc(bases: map<Key, BaseEntry>, forks: map<Key, ForkEntry>)

  const EMPTY_DOC := Doc(map[], map[])

  datatype RegistryError = NotFound(key: Key) | Io

  /** The closures handed to `with_exclusive_lock`. */
  datatype Closure =
    | InsertBase(key: Key, base: BaseEntry)
    | RemoveBase(key: Key)
    | InsertFork(key: Key, fork: ForkEntry)
    | RemoveFork(key: Key)

  function Apply(op: Closure, doc: Doc): Result<Doc, RegistryError> {
    match op
    case InsertBase(k, e) => Ok(doc.(bases := doc.bases[k := e]))
    case InsertFork(k, e) => Ok(doc.(forks := doc.forks[k := e]))
    case RemoveBase(k) => if k in doc.bases then Ok(doc.(bases := doc.bases - {k})) else Err(NotFound(k))
    case RemoveFork(k) => if k in doc.forks then Ok(doc.(forks := doc.forks - {k})) else Err(NotFound(k))
  }

  /** A closure works on its own key of its own map; an insert always succeeds and can be
      read back, and a remove succeeds exactly when there is an entry to remove. */
  lemma ClosureEffect(op: Closure, doc: Doc)
    ensures Apply(op, doc).Err? <==> (op.RemoveBase? && op.key !in doc.bases) || (op.RemoveFork? && op.key !in doc.forks)
    ensures Apply(op, doc).Err? ==> Apply(op, doc).error == NotFound(op.key)
    ensures Apply(op, doc).Ok? ==>
      var after := Apply(op, doc).value;
      && (op.InsertBase? || op.RemoveBase? ==> after.forks == doc.forks)
      && (op.InsertFork? || op.RemoveFork? ==> after.bases == doc.bases)
      && (forall k | k != op.key :: (k in after.bases <==> k in doc.bases) && (k in after.forks <==> k in doc.forks))
      && (forall k | k != op.key && k in doc.bases :: after.bases[k] == doc.bases[k])
      && (forall k | k != op.key && k in doc.forks :: after.forks[k] == doc.forks[k])
      && (op.InsertBase? ==> op.key in after.bases && after.bases[op.key] == op.base)
      && (op.InsertFork? ==> op.key in after.forks && after.forks[op.key] == op.fork)
      && (op.RemoveBase? ==> op.key !in after.bases)
      && (op.RemoveFork? ==> op.key !in after.forks)
  {
  }

  /** What is in registry.json: a document, or a text cut off before its end, which does not
      parse. */
  datatype Content = Whole(doc: Doc) | Torn

  predicate Parses(file: Option<Content>) {
    file.None? || file.value.Whole?
  }

  /** The document read from registry.json; an absent file reads as the empty document. */
  function DocOf(file: Option<Content>): Doc {
    if file.Some? && file.value.Whole? then file.value.doc else EMPTY_DOC
  }

  /** What the disk does to a critical section, if anything. `StatLost` makes registry.json
      look absent. `FlushLost` loses the last buffered bytes of the temp file, which nobody
      notices. */
  datatype Fault = NoFault | LockLost | StatLost | ReadLost | TempLost | FlushLost | RenameLost

  /** registry.json and the answer after a critical section. */
  function Critical(file: Option<Content>, op: Closure, fault: Fault): (Option<Content>, Result<(), RegistryError>) {
    if fault == LockLost || fault == ReadLost || (fault != StatLost && !Parses(file)) then (file, Err(Io))
    else match Apply(op, if fault == StatLost then EMPTY_DOC else DocOf(file))
      case Err(e) => (file, Err(e))
      case Ok(doc) =>
        if fault == TempLost || fault == RenameLost then (file, Err(Io))
        else (Some(if fault == FlushLost then Torn else Whole(doc)), Ok(()))
  }

  /** A call that reports success has put the closure's result in place exactly when the last
      flush was not lost and, if the stat failed, the closure does the same to the empty
      document; after a lost flush the file is torn, and after a failed stat it holds nothing but
      what was inserted. A call that reports failure has changed nothing. */
  lemma CriticalExactly(file: Option<Content>, op: Closure, fault: Fault)
    requires Parses(file)
    ensures var (after, r) := Critical(file, op, fault);
            && (r.Err? ==> after == file)
            && (r.Ok? ==>
                  (Parses(after) && Ok(DocOf(after)) == Apply(op, DocOf(file))
                   <==> fault != FlushLost && (fault == StatLost ==> Apply(op, EMPTY_DOC) == Apply(op, DocOf(file)))))
            && (r.Ok? && fault == FlushLost ==> after == Some(Torn))
            && (r.Ok? && fault == StatLost ==>
                  after == Some(Whole(if op.InsertBase? then Doc(map[op.key := op.base], map[])
                                      else Doc(map[], map[op.key := op.fork]))))
  {
  }

  /** The closure removes a key that the document does not hold. */
  predicate RemovesNothing(op: Closure, doc: Doc) {
    (op.RemoveBase? && op.key !in doc.bases) || (op.RemoveFork? && op.key !in doc.forks)
  }

  /** What a call answers. With the file locked, seen and parsed: NotFound of its key for a remove
      of an absent key, whatever goes wrong later; for any other closure success exactly when
      neither the temp file nor the rename is lost. A call that cannot lock or read answers Io, and
      one that does not see the file answers as on an empty document. */
  lemma AnswersExactly(file: Option<Content>, op: Closure, fault: Fault)
    ensures var r := Critical(file, op, fault).1;
            if fault.LockLost? || fault.ReadLost? || (!fault.StatLost? && file == Some(Torn)) then r == Err(Io)
            else if RemovesNothing(op, if file == Some(Torn) || file == None || fault.StatLost? then EMPTY_DOC else file.value.doc)
            then r == Err(NotFound(op.key))
            else if fault.TempLost? || fault.RenameLost? then r == Err(Io)
            else r == Ok(())
  {
    ClosureEffect(op, if fault.StatLost? then EMPTY_DOC else DocOf(file));
  }

  /** How a read of registry.json goes: as it should, with a stat that fails, or with an error. */
  datatype Look = Sees | Missed | Unreadable

  class RegistryHandle {
    var file: Option<Content>   // registry.json

    constructor ()
      ensures file == None
    {
      file := None;
    }

    /** Lock, read, run the closure, write a temp file and rename it over. */
    method WithExclusiveLock(op: Closure, fault: Fault) returns (r: Result<(), RegistryError>)
      modifies this
      ensures (file, r) == Critical(old(file), op, fault)
      ensures Parses(old(file)) && !fault.LockLost? && !fault.StatLost? && !fault.ReadLost? ==>
                && (RemovesNothing(op, DocOf(old(file))) ==> r == Err(NotFound(op.key)) && file == old(file))
                && (!RemovesNothing(op, DocOf(old(file))) ==>
                      r == if fault.TempLost? || fault.RenameLost? then Err(Io) else Ok(()))
      ensures fault.LockLost? || fault.ReadLost? || (!fault.StatLost? && !Parses(old(file))) ==>
                r == Err(Io) && file == old(file)
    {
      AnswersExactly(file, op, fault);
      if fault == LockLost {
        return Err(Io);
      }
      var look := if fault == StatLost then Missed else if fault == ReadLost then Unreadable else Sees;
      var doc := ReadDoc(look);
      if doc.Err? {
        return Err(Io);
      }
      var applied := Apply(op, doc.value);
      if applied.Err? {
        return Err(applied.error);
      }
      if fault == TempLost || fault == RenameLost {
        return Err(Io);
      }
      file := Some(if fault == FlushLost then Torn else Whole(applied.value));
      return Ok(());
    }

    /** A file that looks absent reads as the empty document, whether it is absent or not. */
    method ReadDoc(look: Look) returns (r: Result<Doc, RegistryError>)
      ensures r.Ok? <==> look.Missed? || (look.Sees? && Parses(file))
      ensures r.Ok? ==> r.value == (if look.Missed? then EMPTY_DOC else DocOf(file))
    {
      if look.Missed? || (look.Sees? && file.None?) {
        return Ok(EMPTY_DOC);
      }
      if look.Unreadable? || file.value.Torn? {
        return Err(Io);
      }
      return Ok(file.value.doc);
    }

    method GetBase(key: Key, look: Look) returns (r: Result<BaseEntry, RegistryError>)
      ensures look.Unreadable? || (look.Sees? && !Parses(file)) ==> r == Err(Io)
      ensures look.Missed? || (look.Sees? && Parses(file) && key !in DocOf(file).bases) ==> r == Err(NotFound(key))
      ensures look.Sees? && Parses(file) && key in DocOf(file).bases ==> r == Ok(DocOf(file).bases[key])
    {
      var doc := ReadDoc(look);
      if doc.Err? {
        return Err(Io);
      }
      return if key in doc.value.bases then Ok(doc.value.bases[key]) else Err(NotFound(key));
    }

    method GetFork(key: Key, look: Look) returns (r: Result<ForkEntry, RegistryError>)
      ensures look.Unreadable? || (look.Sees? && !Parses(file)) ==> r == Err(Io)
      ensures look.Missed? || (look.Sees? && Parses(file) && key !in DocOf(file).forks) ==> r == Err(NotFound(key))
      ensures look.Sees? && Parses(file) && key in DocOf(file).forks ==> r == Ok(DocOf(file).forks[key])
    {
      var doc := ReadDoc(look);
      if doc.Err? {
        return Err(Io);
      }
      return if key in doc.value.forks then Ok(doc.value.forks[key]) else Err(NotFound(key));
    }
  }
}
