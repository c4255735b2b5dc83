/** The two field validators. Both print a warning per rejected entry; the
    warnings are modelled as the list of entries they name. */
module Validators {
  import opened Subsequences

  /** The parts of the outside world the validators consult: Python's
      `ipaddress.IPv4Network(s, strict=False)` and
      `ipaddress.IPv6Network(s, strict=False)` as "parses without error", and
      `os.path.exists`. */
  datatype Host = Host(
    isIPv4Network: string -> bool,
    isIPv6Network: string -> bool,
    pathExists: string -> bool)

  /** What a validator returns (`kept`) and the entries it warned about. */
  datatype Checked = Checked(kept: seq<string>, warned: seq<string>)

  /** The parse test used for `ipVersion`: IPv4 for 4, IPv6 for anything else. */
  predicate ParsesAs(host: Host, ipVersion: int, cidr: string) {
    if ipVersion == 4 then host.isIPv4Network(cidr) else host.isIPv6Network(cidr)
  }

  /** CIDR filter: keep, in order and unchanged, the entries that parse as a
      network of the given IP version; warn about the rest. Kept and warned
      entries split the input between them. */
  function ValidateCidrList(cidrs: seq<string>, ipVersion: int, host: Host): (r: Checked)
    decreases |cidrs|
    ensures IsSubseq(r.kept, cidrs) && IsSubseq(r.warned, cidrs)
    ensures forall x :: x in r.kept ==> ParsesAs(host, ipVersion, x)
    ensures forall x :: x in r.warned ==> !ParsesAs(host, ipVersion, x)
    ensures multiset(r.kept) + multiset(r.warned) == multiset(cidrs)
  {
    if cidrs == [] then
      Checked([], [])
    else
      var cidr := cidrs[0];
      var tail := ValidateCidrList(cidrs[1..], ipVersion, host);
      assert cidrs == [cidr] + cidrs[1..];
      if ParsesAs(host, ipVersion, cidr) then
        SubseqPrepend(tail.warned, [cidr], cidrs[1..]);
        Checked([cidr] + tail.kept, tail.warned)
      else
        SubseqPrepend(tail.kept, [cidr], cidrs[1..]);
        Checked(tail.kept, [cidr] + tail.warned)
  }

  /** An entry of the input survives exactly when it parses. */
  lemma CidrKeptIffParses(cidrs: seq<string>, ipVersion: int, host: Host, x: string)
    requires x in cidrs
    ensures x in ValidateCidrList(cidrs, ipVersion, host).kept <==> ParsesAs(host, ipVersion, x)
  {
    var r := ValidateCidrList(cidrs, ipVersion, host);
    assert x in multiset(r.kept) + multiset(r.warned);
  }

  /** An input that parses entirely comes back unchanged, with no warning;
      in particular the empty input gives the empty output. */
  lemma {:induction false} CidrAllValidUnchanged(cidrs: seq<string>, ipVersion: int, host: Host)
    requires forall x :: x in cidrs ==> ParsesAs(host, ipVersion, x)
    ensures ValidateCidrList(cidrs, ipVersion, host) == Checked(cidrs, [])
    decreases |cidrs|
  {
    if cidrs != [] {
      CidrAllValidUnchanged(cidrs[1..], ipVersion, host);
      assert [cidrs[0]] + cidrs[1..] == cidrs;
    }
  }

  /** Every version other than 4 is treated as IPv6. */
  lemma {:induction false} CidrNonFourIsSix(cidrs: seq<string>, ipVersion: int, host: Host)
    requires ipVersion != 4
    ensures ValidateCidrList(cidrs, ipVersion, host) == ValidateCidrList(cidrs, 6, host)
    decreases |cidrs|
  {
    if cidrs != [] {
      CidrNonFourIsSix(cidrs[1..], ipVersion, host);
    }
  }

  /** Path check: existence is advisory. Every path is kept, in order; the
      ones that do not exist are also warned about. */
  function ValidatePaths(paths: seq<string>, host: Host): (r: Checked)
    decreases |paths|
    ensures r.kept == paths
    ensures IsSubseq(r.warned, paths)
    ensures forall p :: p in paths ==> (p in r.warned <==> !host.pathExists(p))
    ensures forall p :: multiset(r.warned)[p] == if host.pathExists(p) then 0 else multiset(paths)[p]
  {
    if paths == [] then
      Checked([], [])
    else
      var p := paths[0];
      var tail := ValidatePaths(paths[1..], host);
      assert paths == [p] + paths[1..];
      if host.pathExists(p) then
        SubseqPrepend(tail.warned, [p], paths[1..]);
        SubseqMembers(tail.warned, paths[1..]);
        Checked([p] + tail.kept, tail.warned)
      else
        Checked([p] + tail.kept, [p] + tail.warned)
  }
}
