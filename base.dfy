/** Option and Result, and the exceptions the menu generator raises and catches. */
module Base {

  datatype Option<+T> = None | Some(value: T)

  /** The outcome of a step that may raise one of the program's exceptions. */
  datatype Result<+T> = Ok(value: T) | Err(error: Error)

  /** The exception classes of the program. TmuxCommandError and TmuxParseError
      are the two kinds of TmuxError; ConfigError stands alone. Each is raised
      with a single message string, which is also what str() gives for it. */
  datatype Error =
    | TmuxCommandError(message: string)
    | TmuxParseError(message: string)
    | ConfigError(message: string)

  /** A prefix of a prefix is a prefix. */
  lemma PrefixOfPrefix<T>(s: seq<T>, i: nat, j: nat)
    requires i <= j <= |s|
    ensures s[..j][..i] == s[..i]
  {
  }

  /** f applied to each element of s, in order. */
  function Map<A, B>(f: A --> B, s: seq<A>): (r: seq<B>)
    requires forall i :: 0 <= i < |s| ==> f.requires(s[i])
    ensures |r| == |s|
    ensures forall i :: 0 <= i < |s| ==> r[i] == f(s[i])
  {
    if s == [] then [] else Map(f, s[..|s| - 1]) + [f(s[|s| - 1])]
  }
}
