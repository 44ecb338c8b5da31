/** `job.json`, as `scripts/ops/auto_layout_downgrade.py` reads and rewrites it, and the lock around that. */
module JobFiles {
  import opened Wrappers

  const MAX_JOB_BYTES: nat := 4 * 1024 * 1024

  /** What was parsed: `options.renderMode`, if there is one, the code points of the rest, and whether it
      is nested too deeply for `json.dumps`, though not for `json.loads`. */
  datatype JobFile = JobFile(renderMode: Option<string>, rest: seq<nat>, deep: bool)

  /** Half of a surrogate pair: JSON can escape it alone, UTF-8 cannot encode it. */
  predicate IsSurrogate(c: nat) {
    0xD800 <= c < 0xE000
  }

  /** What was parsed can be encoded. */
  predicate Encodes(file: JobFile) {
    forall k | 0 <= k < |file.rest| :: !IsSurrogate(file.rest[k])
  }

  /** It can be written back: `json.dumps` gets through it, and what that gives can be encoded. */
  predicate Writable(file: JobFile) {
    !file.deep && Encodes(file)
  }

  predicate Auto(file: JobFile) {
    file.renderMode == Some("auto")
  }

  /** Only the render mode changes. */
  function Rewritten(file: JobFile): JobFile {
    file.(renderMode := Some("fit-blur"))
  }

  /** The lock directory: who made it, and whose token `owner.json` holds. The tokens are distinct, so
      a process number stands for its token. */
  datatype Lock = Absent | Present(maker: nat, owner: Option<nat>)
}
