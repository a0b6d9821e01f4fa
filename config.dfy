/** The module's location configuration: the enable flag and the two
    enumerated settings, their numeric constants and directive names,
    the "unset" state a fresh configuration starts in, and the merge that
    resolves a location's settings from its parent's. */
module Config {
  import opened Wrappers
  import opened Ascii

  /** security_headers_xss: omit, off, on, block. */
  datatype XssMode = XssOmit | XssOff | XssOn | XssBlock

  /** security_headers_frame: omit, sameorigin, deny. */
  datatype FrameMode = FrameOmit | FrameSameOrigin | FrameDeny

  /** NGX_HTTP_SECURITY_HEADER_OMIT and NGX_HTTP_XSS_HEADER_OFF/ON/BLOCK.
      The codes and the modes are in one-to-one correspondence (XssOfCode
      round-trips), so the rest of the model works on the modes; these
      functions only record the numeric constants. */
  function XssCode(m: XssMode): nat {
    match m
    case XssOmit => 0
    case XssOff => 1
    case XssOn => 2
    case XssBlock => 3
  }

  /** NGX_HTTP_SECURITY_HEADER_OMIT and NGX_HTTP_FO_HEADER_SAME/DENY
      (recorded only, as for XssCode). */
  function FrameCode(m: FrameMode): nat {
    match m
    case FrameOmit => 0
    case FrameSameOrigin => 1
    case FrameDeny => 2
  }

  /** The mode a stored XSS constant stands for; exactly 0..3 are used. */
  function XssOfCode(n: nat): (r: Option<XssMode>)
    ensures r.Some? <==> n <= 3
    ensures r.Some? ==> XssCode(r.value) == n
  {
    if n == 0 then Some(XssOmit)
    else if n == 1 then Some(XssOff)
    else if n == 2 then Some(XssOn)
    else if n == 3 then Some(XssBlock)
    else None
  }

  /** The mode a stored frame-options constant stands for; exactly 0..2
      are used. */
  function FrameOfCode(n: nat): (r: Option<FrameMode>)
    ensures r.Some? <==> n <= 2
    ensures r.Some? ==> FrameCode(r.value) == n
  {
    if n == 0 then Some(FrameOmit)
    else if n == 1 then Some(FrameSameOrigin)
    else if n == 2 then Some(FrameDeny)
    else None
  }

  /** The two directives' value tables, ngx_http_xss_protection and
      ngx_http_frame_options. */
  const XssTable: seq<(string, XssMode)> :=
    [("off", XssOff), ("on", XssOn), ("block", XssBlock), ("omit", XssOmit)]
  const FrameTable: seq<(string, FrameMode)> :=
    [("sameorigin", FrameSameOrigin), ("deny", FrameDeny), ("omit", FrameOmit)]

  predicate NameIs(entry: string, name: string) {
    |entry| == |name| && StrCaseCmp(entry, name) == 0
  }

  /** How nginx's enum slot reads a directive argument: the value of the
      first table entry whose name has the same length and compares equal
      ignoring case, or none ("invalid value"). */
  function EnumLookup<T>(table: seq<(string, T)>, name: string): (r: Option<T>)
    ensures r.Some? ==>
      exists i :: 0 <= i < |table| && NameIs(table[i].0, name) && table[i].1 == r.value
                  && forall j :: 0 <= j < i ==> !NameIs(table[j].0, name)
    ensures r.None? ==> forall i :: 0 <= i < |table| ==> !NameIs(table[i].0, name)
  {
    if |table| == 0 then None
    else if NameIs(table[0].0, name) then Some(table[0].1)
    else
      var r := EnumLookup(table[1..], name);
      assert forall i :: 1 <= i < |table| ==> table[1..][i - 1] == table[i];
      r
  }

  /** Each directive value names its own mode. */
  lemma XssTableNames()
    ensures EnumLookup(XssTable, "off") == Some(XssOff)
    ensures EnumLookup(XssTable, "on") == Some(XssOn)
    ensures EnumLookup(XssTable, "block") == Some(XssBlock)
    ensures EnumLookup(XssTable, "omit") == Some(XssOmit)
  {
  }

  lemma FrameTableNames()
    ensures EnumLookup(FrameTable, "sameorigin") == Some(FrameSameOrigin)
    ensures EnumLookup(FrameTable, "deny") == Some(FrameDeny)
    ensures EnumLookup(FrameTable, "omit") == Some(FrameOmit)
  {
  }

  /** ngx_http_security_headers_loc_conf_t without the content-type hash:
      None is NGX_CONF_UNSET / NGX_CONF_UNSET_UINT. */
  datatype LocConf = LocConf(enable: Option<bool>, xss: Option<XssMode>, fo: Option<FrameMode>)

  /** What the filter reads at request time. */
  datatype Settings = Settings(enable: bool, xss: XssMode, fo: FrameMode)

  predicate IsMerged(c: LocConf) {
    c.enable.Some? && c.xss.Some? && c.fo.Some?
  }

  /** A configuration with every field unset. */
  const UnsetConf: LocConf := LocConf(None, None, None)

  /** ngx_http_security_headers_create_loc_conf: NULL when the pool
      cannot supply the structure (`poolOk` false), otherwise a
      configuration with every field unset. */
  function CreateLocConf(poolOk: bool): (r: Option<LocConf>)
    ensures r.None? <==> !poolOk
    ensures r.Some? ==> r.value.enable.None? && r.value.xss.None? && r.value.fo.None?
  {
    if poolOk then Some(UnsetConf) else None
  }

  /** ngx_conf_merge_value / ngx_conf_merge_uint_value: the child's value
      if set, else the parent's if set, else the default. */
  function MergeValue<T>(conf: Option<T>, prev: Option<T>, default: T): (r: T)
    ensures conf.Some? ==> r == conf.value
    ensures conf.None? && prev.Some? ==> r == prev.value
    ensures conf.None? && prev.None? ==> r == default
  {
    match conf
    case Some(v) => v
    case None => match prev
      case Some(v) => v
      case None => default
  }

  /** ngx_http_security_headers_merge_loc_conf (scalar fields): the
      child's setting if it has one, else the parent's, else the
      default: off, block and sameorigin. */
  function MergeLocConf(prev: LocConf, conf: LocConf): (r: LocConf)
    ensures IsMerged(r)
    ensures conf.enable.Some? ==> r.enable == conf.enable
    ensures conf.xss.Some? ==> r.xss == conf.xss
    ensures conf.fo.Some? ==> r.fo == conf.fo
    ensures conf.enable.None? && prev.enable.Some? ==> r.enable == prev.enable
    ensures conf.xss.None? && prev.xss.Some? ==> r.xss == prev.xss
    ensures conf.fo.None? && prev.fo.Some? ==> r.fo == prev.fo
    ensures conf.enable.None? && prev.enable.None? ==> r.enable == Some(false)
    ensures conf.xss.None? && prev.xss.None? ==> r.xss == Some(XssBlock)
    ensures conf.fo.None? && prev.fo.None? ==> r.fo == Some(FrameSameOrigin)
  {
    LocConf(
      Some(MergeValue(conf.enable, prev.enable, false)),
      Some(MergeValue(conf.xss, prev.xss, XssBlock)),
      Some(MergeValue(conf.fo, prev.fo, FrameSameOrigin)))
  }

  function Resolve(c: LocConf): Settings
    requires IsMerged(c)
  {
    Settings(c.enable.value, c.xss.value, c.fo.value)
  }

  /** nginx merges each level of the configuration with the already
      merged level above it; the outermost level is never merged itself. */
  function MergeAlong(root: LocConf, path: seq<LocConf>): LocConf
    decreases |path|
  {
    if |path| == 0 then root
    else MergeLocConf(MergeAlong(root, path[..|path| - 1]), path[|path| - 1])
  }

  /** The explicit settings alone, the inner level over the outer. */
  function Overlay(prev: LocConf, conf: LocConf): LocConf {
    LocConf(
      if conf.enable.Some? then conf.enable else prev.enable,
      if conf.xss.Some? then conf.xss else prev.xss,
      if conf.fo.Some? then conf.fo else prev.fo)
  }

  function OverlayAlong(root: LocConf, path: seq<LocConf>): LocConf
    decreases |path|
  {
    if |path| == 0 then root
    else Overlay(OverlayAlong(root, path[..|path| - 1]), path[|path| - 1])
  }

  /** Merging level by level gives every setting its innermost explicit
      value, and the default only where no level sets it: the same as
      overlaying all explicit settings and merging once with an empty
      parent. */
  lemma {:induction false} MergeAlongIsInnermost(root: LocConf, path: seq<LocConf>)
    requires |path| > 0
    ensures MergeAlong(root, path) == MergeLocConf(UnsetConf, OverlayAlong(root, path))
  {
    if |path| > 1 {
      MergeAlongIsInnermost(root, path[..|path| - 1]);
    }
  }
}
