/** The network profile: recognising a Windows UNC path (\\host\share...),
    taking its host, classifying the measured round-trip latency, and
    adjusting the number of parallel copies to the class. */
module NetworkOptimizer {
  import opened Common
  import opened Paths

  datatype LinkType = LAN | VPN | WAN | UNKNOWN

  datatype NetworkInfo = NetworkInfo(host: string, latencyMs: Option<real>, linkType: LinkType)

  /** The parallel-copy count used when the configuration has none (or 0). */
  const DefaultParallelCopies: int := 4

  /** `isUNCPath(p)`: the path starts with two backslashes. */
  predicate IsUNCPath(p: string): (b: bool)
    ensures b <==> "\\\\" <= p
  {
    |p| >= 2 && p[0] == '\\' && p[1] == '\\'
  }

  /** `extractHost(p)`: the text after a leading `\\`, up to the next
      backslash or the end. */
  function ExtractHost(p: string): (host: string)
    ensures NoSep(host, {'\\'})
    ensures IsUNCPath(p) ==>
      2 + |host| <= |p| && p[..2 + |host|] == "\\\\" + host && (2 + |host| == |p| || p[2 + |host|] == '\\')
    ensures !IsUNCPath(p) ==>
      |host| <= |p| && p[..|host|] == host && (|host| == |p| || p[|host|] == '\\')
  {
    var rest := if IsUNCPath(p) then p[2..] else p;
    FirstPart(rest, {'\\'});
    Split(rest, {'\\'})[0]
  }

  /** The latency classes, from 10 ms and 100 ms thresholds. */
  function Classify(latencyMs: Option<real>): (t: LinkType)
    ensures t == UNKNOWN <==> latencyMs.None?
    ensures t == LAN <==> latencyMs.Some? && latencyMs.value < 10.0
    ensures t == VPN <==> latencyMs.Some? && 10.0 <= latencyMs.value < 100.0
    ensures t == WAN <==> latencyMs.Some? && 100.0 <= latencyMs.value
  {
    match latencyMs
    case None => UNKNOWN
    case Some(ms) => if ms < 10.0 then LAN else if ms < 100.0 then VPN else WAN
  }

  /** How good a link class is, best first. */
  function Rank(t: LinkType): nat
  {
    match t
    case LAN => 0
    case VPN => 1
    case WAN => 2
    case UNKNOWN => 3
  }

  /** A lower latency never gives a worse class. */
  lemma ClassifyMonotone(a: real, b: real)
    requires a <= b
    ensures Rank(Classify(Some(a))) <= Rank(Classify(Some(b)))
  {
  }

  /** `detectNetworkInfo(p)` where `ping(host)` is what `pingHost` measures
      (average round trip in ms, or none when `ping` fails or prints no
      average); an empty host is never pinged. */
  function DetectNetworkInfo(p: string, ping: string -> Option<real>): (info: Option<NetworkInfo>)
    ensures info.None? <==> !IsUNCPath(p)
    ensures info.Some? ==>
      info.value.host == ExtractHost(p) &&
      info.value.latencyMs == (if ExtractHost(p) == "" then None else ping(ExtractHost(p))) &&
      info.value.linkType == Classify(info.value.latencyMs)
  {
    if !IsUNCPath(p) then None
    else
      var host := ExtractHost(p);
      var latency := if host == "" then None else ping(host);
      Some(NetworkInfo(host, latency, Classify(latency)))
  }

  /** The parallel-copy count before adjustment: a missing or zero value
      becomes 4. */
  function BaseParallelCopies(parallelCopies: Option<int>): (n: int)
    ensures n != 0
    ensures parallelCopies.Some? && parallelCopies.value != 0 ==> n == parallelCopies.value
    ensures parallelCopies.None? || parallelCopies.value == 0 ==> n == DefaultParallelCopies
  {
    if parallelCopies.None? || parallelCopies.value == 0 then DefaultParallelCopies else parallelCopies.value
  }

  /** `applyNetworkOptimizations(config, networkInfo)`: without a profile the
      same configuration; with one, a copy in which only `parallelCopies`
      differs: raised to at least 8 on a LAN, capped at 4 on a VPN and at 2
      on any other link. */
  function ApplyNetworkOptimizations(config: Config, info: Option<NetworkInfo>): (r: Config)
    ensures info.None? ==> r == config
    ensures r.(parallelCopies := config.parallelCopies) == config
    ensures info.Some? ==> r.parallelCopies.Some?
    ensures info.Some? && info.value.linkType == LAN ==>
      var n, base := r.parallelCopies.value, BaseParallelCopies(config.parallelCopies);
      n >= 8 && n >= base && (n == 8 || n == base)
    ensures info.Some? && info.value.linkType == VPN ==>
      var n, base := r.parallelCopies.value, BaseParallelCopies(config.parallelCopies);
      n <= 4 && n <= base && (n == 4 || n == base)
    ensures info.Some? && info.value.linkType in {WAN, UNKNOWN} ==>
      var n, base := r.parallelCopies.value, BaseParallelCopies(config.parallelCopies);
      n <= 2 && n <= base && (n == 2 || n == base)
  {
    match info
    case None => config
    case Some(ni) =>
      var base := BaseParallelCopies(config.parallelCopies);
      var n := match ni.linkType
        case LAN => Max(base, 8)
        case VPN => Min(base, 4)
        case _ => Min(base, 2);
      config.(parallelCopies := Some(n))
  }

  /** From a UNC path to the concurrency it runs with: a measured latency under
      10 ms allows at least 8 parallel copies, under 100 ms at most 4, and a
      slower or unmeasurable link at most 2. */
  lemma ProfileBoundsConcurrency(config: Config, p: string, ping: string -> Option<real>)
    requires IsUNCPath(p)
    ensures var info := DetectNetworkInfo(p, ping);
      var n := ApplyNetworkOptimizations(config, info).parallelCopies.value;
      var latency := info.value.latencyMs;
      (latency.Some? && latency.value < 10.0 ==> n >= 8) &&
      (latency.Some? && 10.0 <= latency.value < 100.0 ==> n <= 4) &&
      (latency.None? || 100.0 <= latency.value ==> n <= 2)
  {
  }
}
