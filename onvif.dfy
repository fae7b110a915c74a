/**
 * The camera-side helpers: the ONVIF service address, the rewrite of the
 * host in the RTSP address the camera reports, the choice of a frame from
 * the stream, and the bounded retry around a capture.
 */
module Onvif {
  import opened Wrappers
  import opened Text

  /** The `OnvifClientError` messages, one constructor per raise site of the functions modelled here. */
  datatype OnvifError =
    | UnknownService(service: string)
    | RtspUriNotFound
    | StreamNotOpened
    | NoValidFrames
    | NoMediaProfiles
    | ImageWriteFailed(path: string)
    | RequestFailed(message: string)
    | RetriesExhausted(tries: int, last: Option<OnvifError>)

  // ---------------------------------------------------------------------
  // Service addresses

  const SERVICE_PATHS: map<string, string> := map[
    "device" := "/onvif/device_service",
    "media" := "/onvif/media_service",
    "ptz" := "/onvif/ptz_service"
  ]

  /** `get_service_url(camera_ip, service)` */
  function ServiceUrl(ip: string, service: string): (r: Result<string, OnvifError>)
    ensures r.Ok? <==> service in {"device", "media", "ptz"}
    ensures r.Err? ==> r.error == UnknownService(service)
    ensures r.Ok? ==> StartsWith(r.value, "http://" + ip) && StartsWith(r.value[|ip| + 7..], "/onvif/")
    ensures service == "device" ==> r == Ok("http://" + ip + "/onvif/device_service")
    ensures service == "media" ==> r == Ok("http://" + ip + "/onvif/media_service")
    ensures service == "ptz" ==> r == Ok("http://" + ip + "/onvif/ptz_service")
  {
    if service in SERVICE_PATHS && SERVICE_PATHS[service] != "" then
      var path := SERVICE_PATHS[service];
      assert StartsWith(path, "/onvif/") by {
        assert service == "device" || service == "media" || service == "ptz";
      }
      var url := "http://" + ip + path;
      assert url[..|ip| + 7] == "http://" + ip;
      assert url[|ip| + 7..] == path;
      Ok(url)
    else Err(UnknownService(service))
  }

  /**
   * A service address names its camera and its service: no two
   * (address, service) pairs share one. The three paths already differ
   * in their ninth character from the end.
   */
  lemma ServiceUrlInjective(ip1: string, s1: string, ip2: string, s2: string)
    requires ServiceUrl(ip1, s1).Ok? && ServiceUrl(ip2, s2).Ok?
    requires ServiceUrl(ip1, s1).value == ServiceUrl(ip2, s2).value
    ensures ip1 == ip2 && s1 == s2
  {
    var u := ServiceUrl(ip1, s1).value;
    var p1, p2 := SERVICE_PATHS[s1], SERVICE_PATHS[s2];
    assert u == "http://" + ip1 + p1 == "http://" + ip2 + p2;
    assert u[|u| - 9] == p1[|p1| - 9] == p2[|p2| - 9];
    assert s1 == s2;
    assert |ip1| == |ip2|;
    assert ip1 == u[7..7 + |ip1|] == ip2;
  }

  // ---------------------------------------------------------------------
  // re.sub(r'rtsp://\d+\.\d+\.\d+\.\d+', 'rtsp://' + camera_ip, uri)

  /** The number of ASCII digits `t` starts with. */
  function DigitRun(t: string): (n: nat)
    ensures n <= |t|
  {
    if t != [] && IsDigit(t[0]) then 1 + DigitRun(t[1..]) else 0
  }

  /** The digit run is all digits, and no digit follows it. */
  lemma {:induction false} DigitRunSpec(t: string)
    ensures AllDigits(t[..DigitRun(t)])
    ensures DigitRun(t) == |t| || !IsDigit(t[DigitRun(t)])
  {
    if t != [] && IsDigit(t[0]) {
      var n := DigitRun(t);
      DigitRunSpec(t[1..]);
      assert t[..n] == [t[0]] + t[1..][..n - 1];
    }
  }

  /** `t` is `count` non-empty digit runs joined by dots (`\d+(\.\d+)*`). */
  ghost predicate Dotted(t: string, count: nat) {
    var parts := Split(t, '.');
    |parts| == count && forall p :: p in parts ==> p != [] && AllDigits(p)
  }

  /**
   * The length of the prefix of `t` that `\d+(\.\d+){count-1}` matches
   * greedily, 0 when it does not match. Each `\d+` but the last is
   * followed by a dot, so backing off a digit never helps; only the last
   * run's length is a choice, and greed takes all of it.
   */
  function DottedLength(t: string, count: nat): (n: nat)
    requires count >= 1
    ensures n <= |t|
    decreases count
  {
    var d := DigitRun(t);
    if d == 0 then 0
    else if count == 1 then d
    else if d < |t| && t[d] == '.' then
      var rest := DottedLength(t[d + 1..], count - 1);
      if rest == 0 then 0 else d + 1 + rest
    else 0
  }

  lemma SplitAtFirstDot(a: string, b: string)
    requires '.' !in a
    ensures Split(a + "." + b, '.') == [a] + Split(b, '.')
  {
    var t := a + "." + b;
    assert t[|a|] == '.';
    var k := IndexOf(t, '.');
    assert forall j :: 0 <= j < |a| ==> t[j] == a[j];
    assert k == |a|;
    assert t[..k] == a && t[k + 1..] == b;
  }

  lemma AllDigitsNoDot(t: string)
    requires AllDigits(t)
    ensures '.' !in t
  {
  }

  /** The prefix of `t` of length `n`, cut at position `d`. */
  lemma SliceAround(t: string, d: nat, n: nat)
    requires d < n <= |t|
    ensures t[..n] == t[..d] + [t[d]] + t[d + 1..][..n - d - 1]
  {
  }

  /** One step of `DottedLength` while more than one number is left. */
  lemma DottedLengthStep(t: string, count: nat)
    requires count >= 2
    ensures var d := DigitRun(t);
            DottedLength(t, count) > 0
            <==> 0 < d < |t| && t[d] == '.' && DottedLength(t[d + 1..], count - 1) > 0
    ensures var d := DigitRun(t);
            DottedLength(t, count) > 0 ==> DottedLength(t, count) == d + 1 + DottedLength(t[d + 1..], count - 1)
  {
  }

  /** One non-empty number is a dotted run of one. */
  lemma DottedOne(s: string)
    requires s != [] && AllDigits(s)
    ensures Dotted(s, 1)
  {
    AllDigitsNoDot(s);
    assert Split(s, '.') == [s];
  }

  /** A number, a dot and a dotted run of `count` numbers are a dotted run of `count + 1`. */
  lemma DottedCons(s: string, a: string, b: string, count: nat)
    requires a != [] && AllDigits(a) && Dotted(b, count)
    requires s == a + "." + b
    ensures Dotted(s, count + 1)
  {
    AllDigitsNoDot(a);
    SplitAtFirstDot(a, b);
  }

  /** What `DottedLength` matches is a dotted run of `count` numbers. */
  lemma {:induction false} DottedLengthSound(t: string, count: nat)
    requires count >= 1 && DottedLength(t, count) > 0
    ensures Dotted(t[..DottedLength(t, count)], count)
    decreases count
  {
    var d, n := DigitRun(t), DottedLength(t, count);
    DigitRunSpec(t);
    if count == 1 {
      assert n == d;
      DottedOne(t[..n]);
    } else {
      DottedLengthStep(t, count);
      var u := t[d + 1..];
      var rest := DottedLength(u, count - 1);
      DottedLengthSound(u, count - 1);
      SliceAround(t, d, n);
      DottedCons(t[..n], t[..d], u[..rest], count - 1);
    }
  }

  /** A dotted run with a dot: a non-empty number, the dot, and a dotted run of one number fewer. */
  lemma DottedHead(s: string, count: nat) returns (k: nat)
    requires Dotted(s, count) && '.' in s
    ensures count >= 2 && 0 < k < |s| && s[k] == '.'
    ensures AllDigits(s[..k]) && Dotted(s[k + 1..], count - 1)
  {
    var parts := Split(s, '.');
    k := IndexOf(s, '.');
    assert parts == [s[..k]] + Split(s[k + 1..], '.');
    assert parts[0] in parts;
    forall p | p in Split(s[k + 1..], '.')
      ensures p != [] && AllDigits(p)
    {
      assert p in parts;
    }
  }

  /** A dotted run without a dot is one non-empty number. */
  lemma DottedSingle(s: string, count: nat)
    requires Dotted(s, count) && '.' !in s
    ensures count == 1 && s != [] && AllDigits(s)
  {
    assert Split(s, '.') == [s];
    assert s in Split(s, '.');
  }

  /** The digits at the start of `t` that stop at position `k` form its digit run when `t[k]` is not a digit. */
  lemma {:induction false} DigitRunExact(t: string, k: nat)
    requires k <= |t| && AllDigits(t[..k])
    ensures k <= DigitRun(t)
    ensures k == |t| || !IsDigit(t[k]) ==> DigitRun(t) == k
  {
    if k > 0 {
      assert IsDigit(t[0]) by { assert t[0] == t[..k][0]; }
      assert t[1..][..k - 1] == t[..k][1..];
      DigitRunExact(t[1..], k - 1);
      if k < |t| {
        assert t[1..][k - 1] == t[k];
      }
    }
  }

  /**
   * Every dotted run of `count` numbers at the start of `t` is at most as
   * long as the greedy match, and is the greedy match when no digit
   * follows it.
   */
  lemma {:induction false} DottedLengthGreatest(t: string, count: nat, m: nat)
    requires count >= 1 && m <= |t| && Dotted(t[..m], count)
    ensures DottedLength(t, count) > 0 && m <= DottedLength(t, count)
    ensures m == |t| || !IsDigit(t[m]) ==> DottedLength(t, count) == m
    decreases count
  {
    var s := t[..m];
    if '.' in s {
      var k := DottedHead(s, count);
      assert s[..k] == t[..k] && t[k] == s[k];
      DigitRunExact(t, k);
      var u := t[k + 1..];
      assert u[..m - k - 1] == s[k + 1..];
      DottedLengthGreatest(u, count - 1, m - k - 1);
      DottedLengthStep(t, count);
      if m < |t| {
        assert t[m] == u[m - k - 1];
      }
    } else {
      DottedSingle(s, count);
      DigitRunExact(t, m);
    }
  }

  /** `rtsp://` followed by a dotted quad is a prefix of `t` of length `m`. */
  ghost predicate HostAt(t: string, m: int) {
    7 < m <= |t| && t[..7] == "rtsp://" && Dotted(t[7..m], 4)
  }

  /** The length of the match of the host pattern at the start of `t`, 0 if none. */
  function HostLength(t: string): (n: nat)
    ensures n <= |t|
  {
    if |t| >= 7 && t[..7] == "rtsp://" then
      var q := DottedLength(t[7..], 4);
      if q == 0 then 0 else 7 + q
    else 0
  }

  lemma HostLengthSound(t: string)
    requires HostLength(t) > 0
    ensures HostAt(t, HostLength(t))
  {
    var u := t[7..];
    DottedLengthSound(u, 4);
    assert t[7..HostLength(t)] == u[..DottedLength(u, 4)];
  }

  lemma HostLengthLongest(t: string, m: int)
    requires HostAt(t, m)
    ensures HostLength(t) > 0 && m <= HostLength(t)
    ensures m == |t| || !IsDigit(t[m]) ==> HostLength(t) == m
  {
    var u := t[7..];
    assert t[7..m] == u[..m - 7];
    DottedLengthGreatest(u, 4, m - 7);
    if m < |t| {
      assert t[m] == u[m - 7];
    }
  }

  /** The match the regular expression engine takes: a host, and the longest one. */
  lemma HostLengthGreedy(t: string)
    ensures HostLength(t) > 0 ==> HostAt(t, HostLength(t))
    ensures forall m :: HostAt(t, m) ==> HostLength(t) > 0 && m <= HostLength(t)
  {
    if HostLength(t) > 0 {
      HostLengthSound(t);
    }
    forall m | HostAt(t, m)
      ensures HostLength(t) > 0 && m <= HostLength(t)
    {
      HostLengthLongest(t, m);
    }
  }

  /** `re.sub`: every match, scanning left to right without overlap, becomes `repl`. */
  function Rewrite(t: string, repl: string): string
    decreases |t|
  {
    if t == [] then []
    else
      var n := HostLength(t);
      if n > 0 then repl + Rewrite(t[n..], repl) else [t[0]] + Rewrite(t[1..], repl)
  }

  /** No host anywhere in `t`. */
  ghost predicate NoHost(t: string) {
    forall i, m :: 0 <= i <= |t| ==> !HostAt(t[i..], m)
  }

  /** An address without a dotted-quad host is left as it is. */
  lemma {:induction false} RewriteNoHost(t: string, repl: string)
    requires NoHost(t)
    ensures Rewrite(t, repl) == t
    decreases |t|
  {
    if t != [] {
      HostLengthGreedy(t);
      assert t[0..] == t;
      assert HostLength(t) == 0;
      assert NoHost(t[1..]) by {
        forall i, m | 0 <= i <= |t[1..]|
          ensures !HostAt(t[1..][i..], m)
        {
          assert t[1..][i..] == t[i + 1..];
        }
      }
      RewriteNoHost(t[1..], repl);
    }
  }

  /**
   * The usual camera answer, `rtsp://a.b.c.d` then a port and a path:
   * the host is replaced by the configured address, the rest is kept.
   */
  lemma RewriteLeadingHost(quad: string, rest: string, repl: string)
    requires Dotted(quad, 4)
    requires rest == [] || !IsDigit(rest[0])
    requires NoHost(rest)
    ensures Rewrite("rtsp://" + quad + rest, repl) == repl + rest
  {
    var t, m := "rtsp://" + quad + rest, 7 + |quad|;
    assert t[..7] == "rtsp://" && t[7..m] == quad;
    if rest != [] {
      assert t[m] == rest[0];
    }
    HostLengthLongest(t, m);
    assert t[m..] == rest;
    RewriteNoHost(rest, repl);
  }

  /**
   * `get_stream_uri` after the request: a missing or empty `tt:Uri`
   * element raises, any other text has its hosts rewritten.
   */
  function StreamUri(uriText: Option<string>, ip: string): (r: Result<string, OnvifError>)
    ensures r.Err? <==> uriText.None? || uriText.value == []
    ensures r.Err? ==> r.error == RtspUriNotFound
    ensures r.Ok? ==> r.value == Rewrite(uriText.value, "rtsp://" + ip)
  {
    if uriText.None? || uriText.value == [] then Err(RtspUriNotFound)
    else Ok(Rewrite(uriText.value, "rtsp://" + ip))
  }

  // ---------------------------------------------------------------------
  // Frames

  /** What the model keeps of an image: its size and whether its contrast passed. */
  datatype Frame = Frame(height: int, width: int, contrastOk: bool)

  /** `_is_valid_frame`: a frame, at least 100 by 100 pixels, with enough contrast. */
  predicate IsValidFrame(f: Option<Frame>) {
    f.Some? && 100 <= f.value.height && 100 <= f.value.width && f.value.contrastOk
  }

  /** One `cap.read()`: the success flag and the frame. */
  datatype FrameRead = FrameRead(ret: bool, frame: Option<Frame>)

  /** The frames worth keeping, in stream order. */
  function ValidFrames(frameReads: seq<FrameRead>): (frames: seq<Frame>)
    ensures |frames| <= |frameReads|
    ensures forall f :: f in frames ==> 100 <= f.height && 100 <= f.width
  {
    if frameReads == [] then []
    else
      var last := frameReads[|frameReads| - 1];
      ValidFrames(frameReads[..|frameReads| - 1]) + (if last.ret && IsValidFrame(last.frame) then [last.frame.value] else [])
  }

  lemma ValidFramesAppend(frameReads: seq<FrameRead>, k: nat)
    requires k < |frameReads|
    ensures ValidFrames(frameReads[..k + 1])
            == ValidFrames(frameReads[..k]) + (if frameReads[k].ret && IsValidFrame(frameReads[k].frame) then [frameReads[k].frame.value] else [])
  {
    assert frameReads[..k + 1][..k] == frameReads[..k];
  }

  lemma {:induction false} ValidFramesPrefix(frameReads: seq<FrameRead>, k: nat)
    requires k <= |frameReads|
    ensures ValidFrames(frameReads[..k]) <= ValidFrames(frameReads)
    decreases |frameReads| - k
  {
    if k < |frameReads| {
      ValidFramesAppend(frameReads, k);
      ValidFramesPrefix(frameReads, k + 1);
    } else {
      assert frameReads[..k] == frameReads;
    }
  }

  /**
   * The warm-up loop: grabs are dropped while fewer than 90 have been
   * dropped, a grab succeeds and time remains (`grabs` holds the grabs
   * made before the time limit). The result is the number dropped: the
   * run of successful grabs at the start, capped at 90.
   */
  method Warmup(grabs: seq<bool>) returns (dropped: nat)
    ensures dropped <= 90 && dropped <= |grabs|
    ensures forall k :: 0 <= k < dropped ==> grabs[k]
    ensures dropped < 90 && dropped < |grabs| ==> !grabs[dropped]
  {
    var warmup := 90;
    var k := 0;
    while warmup != 0 && k < |grabs|
      invariant 0 <= warmup <= 90 && k == 90 - warmup && k <= |grabs|
      invariant forall j :: 0 <= j < k ==> grabs[j]
    {
      if !grabs[k] {
        break;
      }
      warmup := warmup - 1;
      k := k + 1;
    }
    dropped := 90 - warmup;
  }

  /**
   * The collection loop: frameReads until five valid frames are kept or time
   * runs out (`frameReads` holds the reads made before the time limit). The
   * frames kept are the first valid ones, at most five.
   */
  method CollectFrames(frameReads: seq<FrameRead>) returns (frames: seq<Frame>)
    ensures |frames| <= 5
    ensures frames <= ValidFrames(frameReads)
    ensures |frames| < 5 ==> frames == ValidFrames(frameReads)
    ensures |frames| == if |ValidFrames(frameReads)| < 5 then |ValidFrames(frameReads)| else 5
  {
    frames := [];
    var k := 0;
    while |frames| < 5 && k < |frameReads|
      invariant k <= |frameReads|
      invariant frames == ValidFrames(frameReads[..k]) && |frames| <= 5
    {
      var r := frameReads[k];
      ValidFramesAppend(frameReads, k);
      if r.ret && IsValidFrame(r.frame) {
        frames := frames + [r.frame.value];
      }
      k := k + 1;
    }
    ValidFramesPrefix(frameReads, k);
    if |frames| < 5 {
      assert frameReads[..k] == frameReads;
    }
  }

  /** `frames[len(frames) // 2]`, and the raise when none were kept. */
  function ChooseFrame(frames: seq<Frame>): (r: Result<Frame, OnvifError>)
    ensures r.Err? <==> frames == []
    ensures r.Err? ==> r.error == NoValidFrames
    ensures r.Ok? ==> exists k :: 0 <= k < |frames| && frames[k] == r.value
                                  && 0 <= k - (|frames| - 1 - k) <= 1
  {
    if frames == [] then Err(NoValidFrames)
    else
      var k := |frames| / 2;
      // names `frames[k]`, so the existential of the ensures finds its witness
      assert frames[k] == frames[k];
      Ok(frames[k])
  }

  /** `os.path.join('/tmp', name)` */
  function TmpPath(name: string): (path: string)
    ensures StartsWith(name, "/") ==> path == name
    ensures !StartsWith(name, "/") ==> StartsWith(path, "/tmp/") && path[5..] == name
  {
    if StartsWith(name, "/") then name else "/tmp/" + name
  }

  /** The file name `snapshot_with_retry` asks for; a missing preset prints as `None`. */
  function SnapshotFileName(preset: Option<string>): string {
    "snapshot_" + preset.GetOr("None") + ".jpg"
  }

  lemma SnapshotFileInTmp(preset: Option<string>)
    ensures var path := TmpPath(SnapshotFileName(preset));
            StartsWith(path, "/tmp/snapshot_") && path[|path| - 4..] == ".jpg"
  {
    var name := SnapshotFileName(preset);
    assert name[0] == 's';
    assert !StartsWith(name, "/");
    assert ("/tmp/" + name)[..14] == "/tmp/snapshot_";
  }

  /**
   * `capture_snapshot` with the stream replaced by what it delivers:
   * whether it opened, the warm-up grabs and the reads before the time
   * limit, and whether writing the image succeeds. `saved` is the frame
   * handed to `cv2.imwrite`: the middle one of the first (at most five)
   * valid frames.
   */
  method CaptureSnapshot(streamOpened: bool, grabs: seq<bool>, frameReads: seq<FrameRead>, outputFilename: string, writeOk: bool)
    returns (r: Result<string, OnvifError>, saved: Option<Frame>)
    ensures !streamOpened ==> r == Err(StreamNotOpened) && saved.None?
    ensures streamOpened && ValidFrames(frameReads) == [] ==> r == Err(NoValidFrames) && saved.None?
    ensures streamOpened && ValidFrames(frameReads) != [] ==>
              var vf := ValidFrames(frameReads);
              var n := if |vf| < 5 then |vf| else 5;
              saved == Some(vf[n / 2])
              && 100 <= saved.value.height && 100 <= saved.value.width
              && r == (if writeOk then Ok(TmpPath(outputFilename)) else Err(ImageWriteFailed(TmpPath(outputFilename))))
  {
    if !streamOpened {
      return Err(StreamNotOpened), None;
    }
    var _ := Warmup(grabs);
    var frames := CollectFrames(frameReads);
    var chosen := ChooseFrame(frames);
    if chosen.Err? {
      return Err(NoValidFrames), None;
    }
    saved := Some(chosen.value);
    ghost var k :| 0 <= k < |frames| && frames[k] == chosen.value && 0 <= k - (|frames| - 1 - k) <= 1;
    assert k == |frames| / 2;
    assert frames[k] == ValidFrames(frameReads)[k];
    assert saved.value in ValidFrames(frameReads);
    var path := TmpPath(outputFilename);
    if !writeOk {
      return Err(ImageWriteFailed(path)), saved;
    }
    r := Ok(path);
  }

  // ---------------------------------------------------------------------
  // snapshot_with_retry

  /** How one call of `capture_snapshot` ends. */
  datatype CaptureOutcome = Captured(path: string) | CaptureFailed(err: OnvifError) | Crashed(message: string)

  /** What `snapshot_with_retry` raises: its own error, or another exception passing through. */
  datatype Raised = ClientError(err: OnvifError) | OtherError(message: string)

  /** Python truthiness of the optional preset. */
  predicate IsSet(preset: Option<string>) {
    preset.Some? && preset.value != []
  }

  /**
   * The requests before the attempts: the profiles request and whether
   * its reply lists a profile, the preset move when a preset is set, and
   * the stream address request and its reply. A failed SOAP request
   * raises with the message of the `requests` error.
   */
  function Setup(profileFailure: Option<string>, hasProfiles: bool, preset: Option<string>, gotoFailure: Option<string>,
                 uriFailure: Option<string>, uriText: Option<string>, ip: string): (r: Result<string, OnvifError>)
    ensures profileFailure.Some? ==> r == Err(RequestFailed(profileFailure.value))
    ensures profileFailure.None? && !hasProfiles ==> r == Err(NoMediaProfiles)
    ensures profileFailure.None? && hasProfiles && IsSet(preset) && gotoFailure.Some? ==>
              r == Err(RequestFailed(gotoFailure.value))
    ensures profileFailure.None? && hasProfiles && (!IsSet(preset) || gotoFailure.None?) && uriFailure.Some? ==>
              r == Err(RequestFailed(uriFailure.value))
    ensures profileFailure.None? && hasProfiles && (!IsSet(preset) || gotoFailure.None?) && uriFailure.None? ==>
              r == StreamUri(uriText, ip)
  {
    if profileFailure.Some? then Err(RequestFailed(profileFailure.value))
    else if !hasProfiles then Err(NoMediaProfiles)
    else if IsSet(preset) && gotoFailure.Some? then Err(RequestFailed(gotoFailure.value))
    else if uriFailure.Some? then Err(RequestFailed(uriFailure.value))
    else StreamUri(uriText, ip)
  }

  /**
   * The attempts of `snapshot_with_retry` once the stream address is
   * known. `capture(url, name, attempt)` stands for the capture made on
   * attempt number `attempt`; `attempts` is how many captures were made.
   * Every attempt before the last failed; the last one either delivered
   * the file, crashed, or failed as the final allowed attempt.
   */
  method RetryCaptures(url: string, name: string, maxRetries: int, capture: (string, string, nat) -> CaptureOutcome)
    returns (r: Result<string, Raised>, attempts: nat)
    ensures attempts <= (if maxRetries < 0 then 0 else maxRetries)
    ensures forall a :: 1 <= a < attempts ==> capture(url, name, a).CaptureFailed?
    ensures r.Ok? ==> attempts >= 1 && capture(url, name, attempts) == Captured(r.value)
    ensures r.Err? && r.error.OtherError? ==> attempts >= 1 && capture(url, name, attempts) == Crashed(r.error.message)
    ensures r.Err? && r.error.ClientError? ==>
              attempts == (if maxRetries < 0 then 0 else maxRetries)
              && (attempts >= 1 ==> capture(url, name, attempts).CaptureFailed?)
              && r.error.err == RetriesExhausted(maxRetries,
                   if attempts == 0 then None else Some(capture(url, name, attempts).err))
  {
    var lastErr: Option<OnvifError> := None;
    attempts := 0;
    var attempt := 1;
    while attempt <= maxRetries
      invariant 1 <= attempt && attempts == attempt - 1
      invariant attempt <= (if maxRetries < 0 then 0 else maxRetries) + 1
      invariant forall a :: 1 <= a < attempt ==> capture(url, name, a).CaptureFailed?
      invariant lastErr == if attempt == 1 then None else Some(capture(url, name, attempt - 1).err)
      decreases maxRetries - attempt
    {
      attempts := attempt;
      match capture(url, name, attempt) {
        case Captured(path) =>
          return Ok(path), attempts;
        case Crashed(message) =>
          return Err(OtherError(message)), attempts;
        case CaptureFailed(e) =>
          lastErr := Some(e);
      }
      attempt := attempt + 1;
    }
    r := Err(ClientError(RetriesExhausted(maxRetries, lastErr)));
  }

  /**
   * `snapshot_with_retry`: the setup requests, whose errors are raised
   * before any capture, then the attempts on the stream address.
   */
  method SnapshotWithRetry(ip: string, preset: Option<string>, maxRetries: int,
                           profileFailure: Option<string>, hasProfiles: bool, gotoFailure: Option<string>,
                           uriFailure: Option<string>, uriText: Option<string>,
                           capture: (string, string, nat) -> CaptureOutcome)
    returns (r: Result<string, Raised>, attempts: nat)
    ensures Setup(profileFailure, hasProfiles, preset, gotoFailure, uriFailure, uriText, ip).Err? ==>
              attempts == 0 && r == Err(ClientError(Setup(profileFailure, hasProfiles, preset, gotoFailure, uriFailure, uriText, ip).error))
    ensures Setup(profileFailure, hasProfiles, preset, gotoFailure, uriFailure, uriText, ip).Ok? ==>
              var url, name := Setup(profileFailure, hasProfiles, preset, gotoFailure, uriFailure, uriText, ip).value, SnapshotFileName(preset);
              attempts <= (if maxRetries < 0 then 0 else maxRetries)
              && (forall a :: 1 <= a < attempts ==> capture(url, name, a).CaptureFailed?)
              && (r.Ok? ==> attempts >= 1 && capture(url, name, attempts) == Captured(r.value))
              && (r.Err? && r.error.OtherError? ==> attempts >= 1 && capture(url, name, attempts) == Crashed(r.error.message))
              && (r.Err? && r.error.ClientError? ==>
                    attempts == (if maxRetries < 0 then 0 else maxRetries)
                    && (attempts >= 1 ==> capture(url, name, attempts).CaptureFailed?)
                    && r.error.err == RetriesExhausted(maxRetries,
                         if attempts == 0 then None else Some(capture(url, name, attempts).err)))
  {
    var setup := Setup(profileFailure, hasProfiles, preset, gotoFailure, uriFailure, uriText, ip);
    if setup.Err? {
      return Err(ClientError(setup.error)), 0;
    }
    r, attempts := RetryCaptures(setup.value, SnapshotFileName(preset), maxRetries, capture);
  }
}
