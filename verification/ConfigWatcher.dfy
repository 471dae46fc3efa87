/** The watcher that applies a configuration file while it exists and the defaults once it is deleted. */
module ConfigWatcher {
  import opened Options

  datatype Stat = Found | NotExist | StatError

  /** What one tick finds: the file status, and the bytes if they can be read. */
  datatype Observation = Observation(stat: Stat, bytes: Option<string>)

  /** One call of the apply function: with a configuration read from these bytes, or with the defaults. */
  datatype Apply = FromFile(bytes: string) | Default

  /** Which bytes decode to a configuration, and how bytes are hashed. */
  datatype Library = Library(decodes: string -> bool, hash: string -> string)

  datatype State = Watched(present: bool, hash: string, applied: seq<Apply>)

  predicate Usable(lib: Library, bytes: Option<string>) {
    bytes.Some? && lib.decodes(bytes.value)
  }

  function Start(lib: Library, first: Option<string>): State {
    if Usable(lib, first) then Watched(true, lib.hash(first.value), [FromFile(first.value)]) else Watched(false, "", [])
  }

  function Next(lib: Library, s: State, o: Observation): State {
    match o.stat
    case Found =>
      if Usable(lib, o.bytes) && lib.hash(o.bytes.value) != s.hash
      then Watched(true, lib.hash(o.bytes.value), s.applied + [FromFile(o.bytes.value)])
      else s.(present := true)
    case NotExist =>
      if s.present then s.(present := false, applied := s.applied + [Default]) else s
    case StatError => s
  }

  function Run(lib: Library, first: Option<string>, os: seq<Observation>): State {
    if os == [] then Start(lib, first) else Next(lib, Run(lib, first, os[..|os| - 1]), os[|os| - 1])
  }

  class DynamicConfigWatcher {
    const lib: Library
    /** The source's field `exists`. */
    var present: bool
    var hash: string
    /** The calls made to the apply function. */
    var applied: seq<Apply>

    function Current(): State
      reads this
    {
      Watched(present, hash, applied)
    }

    /** With a file name and a positive interval, applies the file that is there already. */
    constructor (lib: Library, dynamicConfigFile: string, interval: int, first: Option<string>)
      ensures this.lib == lib
      ensures Current() == if dynamicConfigFile != "" && interval > 0 then Start(lib, first) else Watched(false, "", [])
      ensures applied == if dynamicConfigFile != "" && interval > 0 && first.Some? && lib.decodes(first.value)
                         then [FromFile(first.value)] else []
    {
      this.lib := lib;
      present, hash, applied := false, "", [];
      if dynamicConfigFile != "" && interval > 0 {
        var target, hsh := ReadAndHash(lib, first);
        if target.Some? {
          hash := hsh;
          present := true;
          applied := [FromFile(target.value)];
        }
      }
    }

    /** The bytes that decode, with their hash. */
    static method ReadAndHash(lib: Library, bytes: Option<string>) returns (target: Option<string>, hsh: string)
      ensures target == if Usable(lib, bytes) then bytes else None
      ensures target.Some? ==> hsh == lib.hash(target.value)
    {
      if bytes.None? || !lib.decodes(bytes.value) {
        return None, "";
      }
      target, hsh := bytes, lib.hash(bytes.value);
    }

    method Tick(o: Observation)
      modifies this
      ensures Current() == Next(lib, old(Current()), o)
    {
      if o.stat == Found {
        present := true;
        var target, hsh := ReadAndHash(lib, o.bytes);
        if target.None? {
          return;
        }
        if hsh == hash {
          return;
        }
        hash := hsh;
        applied := applied + [FromFile(target.value)];
      } else if o.stat == NotExist && present {
        present := false;
        applied := applied + [Default];
      }
    }
  }

  // ---------- what was applied ----------

  /** The bytes of the file-driven applies, in order. */
  function FileApplies(log: seq<Apply>): seq<string> {
    if log == [] then []
    else FileApplies(log[..|log| - 1]) + match log[|log| - 1] case FromFile(bytes) => [bytes] case Default => []
  }

  ghost predicate EndsWith<T>(s: seq<T>, x: T) {
    s != [] && s[|s| - 1] == x
  }

  /** The hash kept is that of the last file-driven apply, across deletions too. */
  ghost predicate HashTracks(lib: Library, s: State) {
    var files := FileApplies(s.applied);
    s.hash == if files == [] then "" else lib.hash(files[|files| - 1])
  }

  /** No two successive file-driven applies carry the same bytes. */
  ghost predicate NoRepeats(log: seq<Apply>) {
    forall i :: 0 < i < |FileApplies(log)| ==> FileApplies(log)[i] != FileApplies(log)[i - 1]
  }

  lemma Snoc(log: seq<Apply>, a: Apply)
    ensures FileApplies(log + [a]) == FileApplies(log) + match a case FromFile(bytes) => [bytes] case Default => []
  {
    assert (log + [a])[..|log|] == log;
  }

  lemma FilesKeep(lib: Library, files: seq<string>, hash: string, bytes: string)
    requires hash == if files == [] then "" else lib.hash(files[|files| - 1])
    requires lib.hash(bytes) != hash
    ensures files != [] ==> files[|files| - 1] != bytes
  {}

  /** A file-driven apply of bytes with another hash. */
  lemma FileKeeps(lib: Library, s: State, bytes: string)
    requires HashTracks(lib, s) && NoRepeats(s.applied) && lib.hash(bytes) != s.hash
    ensures var t := Watched(true, lib.hash(bytes), s.applied + [FromFile(bytes)]);
      HashTracks(lib, t) && NoRepeats(t.applied)
  {
    var files := FileApplies(s.applied);
    FilesKeep(lib, files, s.hash, bytes);
    Snoc(s.applied, FromFile(bytes));
    assert FileApplies(s.applied + [FromFile(bytes)]) == files + [bytes];
    forall i | 0 < i < |files + [bytes]|
      ensures (files + [bytes])[i] != (files + [bytes])[i - 1]
    {
      if i < |files| {
        assert files[i] != files[i - 1];
      }
    }
  }

  lemma DefaultKeeps(lib: Library, s: State)
    requires HashTracks(lib, s) && NoRepeats(s.applied)
    ensures var t := s.(present := false, applied := s.applied + [Default]); HashTracks(lib, t) && NoRepeats(t.applied)
  {
    Snoc(s.applied, Default);
    assert FileApplies(s.applied + [Default]) == FileApplies(s.applied);
  }

  lemma NextKeeps(lib: Library, s: State, o: Observation)
    requires HashTracks(lib, s) && NoRepeats(s.applied)
    ensures HashTracks(lib, Next(lib, s, o)) && NoRepeats(Next(lib, s, o).applied)
  {
    match o.stat {
      case Found =>
        if Usable(lib, o.bytes) && lib.hash(o.bytes.value) != s.hash {
          FileKeeps(lib, s, o.bytes.value);
        }
      case NotExist =>
        DefaultKeeps(lib, s);
      case StatError =>
    }
  }

  lemma {:induction false} RunKeeps(lib: Library, first: Option<string>, os: seq<Observation>)
    ensures HashTracks(lib, Run(lib, first, os)) && NoRepeats(Run(lib, first, os).applied)
  {
    if os == [] {
      if Usable(lib, first) {
        Snoc([], FromFile(first.value));
        assert [] + [FromFile(first.value)] == [FromFile(first.value)];
      }
    } else {
      RunKeeps(lib, first, os[..|os| - 1]);
      NextKeeps(lib, Run(lib, first, os[..|os| - 1]), os[|os| - 1]);
    }
  }

  /** Start-up applies the file that is there if it can be read and decoded, and nothing otherwise; later ticks
      only add to what was applied. */
  lemma {:induction false} StartApplies(lib: Library, first: Option<string>, os: seq<Observation>)
    ensures Run(lib, first, []).applied
            == if first.Some? && lib.decodes(first.value) then [FromFile(first.value)] else []
    ensures Run(lib, first, []).applied <= Run(lib, first, os).applied
  {
    if os == [] {
    } else {
      StartApplies(lib, first, os[..|os| - 1]);
    }
  }

  /** A file that cannot be read or decoded changes nothing that was applied. */
  lemma {:induction false} UnusableIgnored(lib: Library, first: Option<string>, os: seq<Observation>, o: Observation)
    requires o.stat != NotExist && !Usable(lib, o.bytes)
    ensures Run(lib, first, os + [o]).applied == Run(lib, first, os).applied
  {
    assert (os + [o])[..|os|] == os;
  }

  /** The hash tells different bytes apart, and is never the empty initial value. */
  ghost predicate CollisionFree(lib: Library) {
    (forall a, b :: lib.hash(a) == lib.hash(b) ==> a == b) && forall a :: lib.hash(a) != ""
  }

  /** After a tick that reads a usable file, that file's configuration is the one in force, unless the file
      has the bytes of the last file-driven apply and the defaults were applied since. */
  lemma {:induction false} InForce(lib: Library, first: Option<string>, os: seq<Observation>, bytes: string)
    requires CollisionFree(lib) && lib.decodes(bytes)
    ensures var before := Run(lib, first, os).applied;
      var after := Run(lib, first, os + [Observation(Found, Some(bytes))]).applied;
      EndsWith(after, FromFile(bytes)) <==> !(EndsWith(FileApplies(before), bytes) && EndsWith(before, Default))
  {
    assert (os + [Observation(Found, Some(bytes))])[..|os|] == os;
    RunKeeps(lib, first, os);
    LastApply(Run(lib, first, os).applied);
  }

  lemma LastApply(log: seq<Apply>)
    ensures log != [] && log[|log| - 1].FromFile? ==> EndsWith(FileApplies(log), log[|log| - 1].bytes)
    ensures log == [] ==> FileApplies(log) == []
  {}

  /** A file deleted and created again with the same bytes stays without effect. */
  lemma {:induction false} RecreatedIgnored(lib: Library, bytes: string)
    requires lib.decodes(bytes)
    ensures Run(lib, Some(bytes), [Observation(NotExist, None), Observation(Found, Some(bytes))]).applied
            == [FromFile(bytes), Default]
  {
    var os := [Observation(NotExist, None), Observation(Found, Some(bytes))];
    assert os[..1] == [Observation(NotExist, None)] && os[..1][..0] == [];
    assert Run(lib, Some(bytes), os[..1])
        == Next(lib, Run(lib, Some(bytes), os[..1][..0]), Observation(NotExist, None));
  }

  // ---------- deletions ----------

  /** Whether the last tick that could tell found the file; at start-up only a usable file counts. */
  function Seen(lib: Library, first: Option<string>, os: seq<Observation>): bool {
    if os == [] then Usable(lib, first)
    else
      match os[|os| - 1].stat
      case Found => true
      case NotExist => false
      case StatError => Seen(lib, first, os[..|os| - 1])
  }

  /** How often the file was found gone after it had been seen. */
  function Deletions(lib: Library, first: Option<string>, os: seq<Observation>): nat {
    if os == [] then 0
    else
      var init := os[..|os| - 1];
      Deletions(lib, first, init) + if os[|os| - 1].stat == NotExist && Seen(lib, first, init) then 1 else 0
  }

  /** The defaults are applied once per deletion and at no other time. */
  lemma {:induction false} DefaultsPerDeletion(lib: Library, first: Option<string>, os: seq<Observation>)
    ensures Run(lib, first, os).present == Seen(lib, first, os)
    ensures multiset(Run(lib, first, os).applied)[Default] == Deletions(lib, first, os)
  {
    if os == [] {
    } else {
      DefaultsPerDeletion(lib, first, os[..|os| - 1]);
    }
  }
}
