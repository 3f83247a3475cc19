/** The command-line and wire helpers: the argv of ceph_command and
    rbd_command, the installed version parsed from `ceph --version`, and the
    4-byte length header of an admin-socket reply. */
module Cli {
  import opened Wrappers

  /** A Python truth test on an optional name: set and not empty. */
  predicate Given(name: Option<string>) { name.Some? && name.value != "" }

  /** The argv ceph_command runs: `ceph`, then `--cluster <name>` when a
      cluster name is given, then the caller's arguments. */
  function CephArgv(cluster: Option<string>, args: seq<string>): (argv: seq<string>)
    ensures |argv| == |args| + (if Given(cluster) then 3 else 1)
    ensures argv[0] == "ceph" && argv[|argv| - |args|..] == args
    ensures Given(cluster) ==> argv[1..3] == ["--cluster", cluster.value]
  {
    if Given(cluster) then ["ceph", "--cluster", cluster.value] + args else ["ceph"] + args
  }

  /** The argv rbd_command runs: `rbd`, then `--pool <name>` when a pool
      name is given, then the caller's arguments. */
  function RbdArgv(pool: Option<string>, args: seq<string>): (argv: seq<string>)
    ensures |argv| == |args| + (if Given(pool) then 3 else 1)
    ensures argv[0] == "rbd" && argv[|argv| - |args|..] == args
    ensures Given(pool) ==> argv[1..3] == ["--pool", pool.value]
  {
    if Given(pool) then ["rbd", "--pool", pool.value] + args else ["rbd"] + args
  }

  // ---------------------------------------------------------------------
  // get_ceph_version
  // ---------------------------------------------------------------------

  /** `s.split(' ')`: the pieces between single spaces, empty ones kept. */
  function Split(s: string): (pieces: seq<string>)
    ensures |pieces| > 0
    ensures forall k :: 0 <= k < |pieces| ==> ' ' !in pieces[k]
  {
    if ' ' !in s then [s]
    else
      var k := FirstSpace(s);
      [s[..k]] + Split(s[k + 1..])
  }

  /** The index of the first space of a string that has one. */
  function FirstSpace(s: string): (k: nat)
    requires ' ' in s
    ensures k < |s| && s[k] == ' ' && ' ' !in s[..k]
  {
    if s[0] == ' ' then 0 else 1 + FirstSpace(s[1..])
  }

  /** The first space after a space-free prefix ends that prefix. */
  lemma {:induction false} FirstSpaceAfter(p: string, rest: string)
    requires ' ' !in p
    ensures FirstSpace(p + " " + rest) == |p|
    decreases |p|
  {
    if p != [] {
      assert (p + " " + rest)[1..] == p[1..] + " " + rest;
      FirstSpaceAfter(p[1..], rest);
    }
  }

  /** `' '.join(pieces)`. */
  function Join(pieces: seq<string>): string
    requires |pieces| > 0
  {
    if |pieces| == 1 then pieces[0] else pieces[0] + " " + Join(pieces[1..])
  }

  /** Splitting loses nothing: joining the pieces gives the text back. */
  lemma {:induction false} JoinSplit(s: string)
    ensures Join(Split(s)) == s
    decreases |s|
  {
    if ' ' in s {
      var k := FirstSpace(s);
      JoinSplit(s[k + 1..]);
      assert Split(s)[1..] == Split(s[k + 1..]);
      assert s == s[..k] + " " + s[k + 1..];
    }
  }

  /** Splitting a join of space-free pieces gives the pieces back. */
  lemma {:induction false} SplitJoin(pieces: seq<string>)
    requires |pieces| > 0 && forall k :: 0 <= k < |pieces| ==> ' ' !in pieces[k]
    ensures Split(Join(pieces)) == pieces
    decreases |pieces|
  {
    if |pieces| > 1 {
      SplitJoin(pieces[1..]);
      SplitAfter(pieces[0], Join(pieces[1..]));
      assert pieces == [pieces[0]] + pieces[1..];
    }
  }

  /** The installed Ceph version: the third space-separated word of the
      output of `ceph --version`, or None when it has fewer words. */
  function CephVersion(out: string): (v: Option<string>)
    ensures v.Some? <==> |Split(out)| > 2
    ensures v.Some? ==> v.value == Split(out)[2] && ' ' !in v.value
  {
    var words := Split(out);
    if |words| > 2 then Some(words[2]) else None
  }

  /** Splitting peels off a space-free first word. */
  lemma SplitAfter(p: string, rest: string)
    requires ' ' !in p
    ensures Split(p + " " + rest) == [p] + Split(rest)
  {
    var s := p + " " + rest;
    FirstSpaceAfter(p, rest);
    assert s[..|p|] == p && s[|p| + 1..] == rest;
  }

  /** The usual output shape gives the release word. */
  lemma CephVersionOfBanner(release: string, rest: string)
    requires ' ' !in release
    ensures CephVersion("ceph version " + release + " " + rest) == Some(release)
  {
    var s2 := release + " " + rest;
    var s1 := "version" + " " + s2;
    assert "ceph version " + release + " " + rest == "ceph" + " " + s1;
    SplitAfter(release, rest);
    SplitAfter("version", s2);
    SplitAfter("ceph", s1);
  }

  // ---------------------------------------------------------------------
  // Admin-socket reply header
  // ---------------------------------------------------------------------

  type Byte = b: int | 0 <= b < 256

  const FrameLimit: nat := 0x1_0000_0000

  /** The payload length an admin-socket reply announces: the first four
      bytes read, big-endian (struct format ">I").  Fewer than four bytes
      raise the "no data" RuntimeError, which do_sockio re-raises as an
      AdminSocketError (a rados.Error) prefixed with "exception: ". */
  function FrameLength(header: seq<Byte>): (r: Result<nat, Error>)
    ensures r.Success? <==> |header| >= 4
    ensures r.Failure? ==> r.error == RadosError("exception: no data returned from admin socket")
    ensures r.Success? ==> r.value < FrameLimit
  {
    if |header| < 4 then Result<nat, Error>.Failure(RadosError("exception: no data returned from admin socket"))
    else
      var b0: int, b1: int, b2: int, b3: int := header[0], header[1], header[2], header[3];
      Success(((b0 * 256 + b1) * 256 + b2) * 256 + b3)
  }

  /** The big-endian header announcing a payload of length `n`: its base-256
      digits, most significant first. */
  function LengthHeader(n: nat): (header: seq<Byte>)
    requires n < FrameLimit
    ensures |header| == 4
  {
    var n1 := n / 256;
    var n2 := n1 / 256;
    [n2 / 256, n2 % 256, n1 % 256, n % 256]
  }

  /** Quotient and remainder by 256 are the only ones. */
  lemma DivMod256(n: int, q: int, r: int)
    requires 0 <= r < 256 && n == q * 256 + r
    ensures n / 256 == q && n % 256 == r
  {
  }

  /** Decoding a header gives back the announced length. */
  lemma FrameLengthHeader(n: nat)
    requires n < FrameLimit
    ensures FrameLength(LengthHeader(n)) == Success(n)
  {
    var n1 := n / 256;
    var n2 := n1 / 256;
    assert n == n1 * 256 + n % 256;
    assert n1 == n2 * 256 + n1 % 256;
    assert n2 == (n2 / 256) * 256 + n2 % 256;
  }

  /** Every four-byte header is the header of the length it announces. */
  lemma HeaderFrameLength(header: seq<Byte>)
    requires |header| == 4
    ensures LengthHeader(FrameLength(header).value) == header
  {
    var b0: int, b1: int, b2: int, b3: int := header[0], header[1], header[2], header[3];
    var n2 := b0 * 256 + b1;
    var n1 := n2 * 256 + b2;
    var n := n1 * 256 + b3;
    assert FrameLength(header).value == n;
    DivMod256(n, n1, b3);
    DivMod256(n1, n2, b2);
    DivMod256(n2, b0, b1);
  }
}
