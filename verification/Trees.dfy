/** The files of the repository, as the evidence scripts look at them: by content, and by hash. */
module Trees {
  import opened Outcome

  type Path = string
  type Digest = string

  /** The SHA-256 of every file of the tree at one moment. */
  type Snapshot = map<Path, Digest>

  type Tree = map<Path, string>

  /** SHA-256 is any function of the bytes. */
  type Sha = string -> Digest

  function Hashes(sha: Sha, t: Tree): Snapshot {
    map p | p in t :: sha(t[p])
  }

  ghost predicate Injective(sha: Sha) {
    forall x, y :: sha(x) == sha(y) ==> x == y
  }

  /** A JSON file that a script reads; `decode` says what its content means, if anything. */
  function Read<T>(t: Tree, p: Path, decode: string -> Option<T>): Result<T> {
    if p !in t then Err(FileMissing(p))
    else
      match decode(t[p])
      case None => Err(Unreadable(p))
      case Some(v) => Ok(v)
  }
}
