/** The advisory lock files of a host: what they are called and who holds them. */
module LockFiles {

  type Pid = nat
  type Space = string
  type Dir = string

  /** A claim on a space or on a palace directory, by the safe form of its name. */
  datatype File = SpaceLock(name: string) | PalaceLock(name: string)

  const SPACE_PREFIX := "eidolon-memory-agent-"
  const PALACE_PREFIX := "eidolon-memory-palace-"

  /** The name on disk. */
  function FileName(f: File): string {
    match f
    case SpaceLock(name) => SPACE_PREFIX + name + ".lock"
    case PalaceLock(name) => PALACE_PREFIX + name + ".lock"
  }

  /** Different claims are different files: the two kinds never meet, whatever the names. */
  lemma FileNamesDiffer(f: File, g: File)
    ensures FileName(f) == FileName(g) <==> f == g
  {
    if FileName(f) == FileName(g) {
      assert FileName(f)[15] == (if f.SpaceLock? then 'a' else 'p');
      assert FileName(g)[15] == (if g.SpaceLock? then 'a' else 'p');
      var n := if f.SpaceLock? then |SPACE_PREFIX| else |PALACE_PREFIX|;
      assert f.name == FileName(f)[n..|FileName(f)| - 5];
      assert g.name == FileName(g)[n..|FileName(g)| - 5];
    }
  }

  /** A lock file is held by one process, on behalf of one space. */
  datatype Holder = Holder(pid: Pid, space: Space)

  /** How this host makes names safe, which directory a process resolves a space to, and how many
      spaces a process may hold. Two spaces may resolve to one directory, and two names may have
      one safe form. */
  datatype Host = Host(safe: string -> string, dirOf: (Pid, Space) -> Dir, maxSpaces: Pid -> nat)

  function SpaceFile(h: Host, s: Space): File {
    SpaceLock(h.safe(s))
  }

  function PalaceFile(h: Host, d: Dir): File {
    PalaceLock(h.safe(d))
  }

  /** The two claims on a space, in the order they are taken. */
  function Claims(h: Host, p: Pid, s: Space): seq<File> {
    [SpaceFile(h, s), PalaceFile(h, h.dirOf(p, s))]
  }
}
