/** Small things that several components share. */
module Basics {
  const MILLION := 1_000_000

  datatype Option<+T> = None | Some(value: T)

  function Without<T>(s: seq<T>, k: nat): seq<T>
    requires k < |s|
  {
    s[..k] + s[k + 1..]
  }

  function With<T>(s: seq<T>, p: nat, x: T): seq<T>
    requires p <= |s|
  {
    s[..p] + [x] + s[p..]
  }
}
