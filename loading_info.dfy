/**
 * LoadingInfo itself: final fields fixed by construction, and the three fields that
 * construction, `reloadIfFileSizeChanged` and `resetLastFileSize` overwrite in place.
 * Each method does its steps in the source's order. `Open` and `ReloadIfFileSizeChanged`
 * are proved to end in the state that LoaderSpec describes, `ResetLastFileSize` states
 * its new state itself, and `LoadProbe` and `Ungzip` compute what the Sniff functions say.
 */
module Loading {
  import opened JavaIo
  import opened Sniff
  import opened LoaderSpec

  class LoadingInfo {
    const friendlyUrl: string
    const tailing: bool
    const gzipped: bool
    /** `inputStreamBufferedStart`, the probe */
    const probe: seq<byte>

    /** `observableInputStreamImpl`, and whether it has been closed */
    var observable: Tracked
    var observableOpen: bool
    /** `contentInputStream` */
    var contentStream: Consumer
    var lastFileSize: nat
    /** the number of tracked streams created so far */
    var streamsCreated: nat

    /** The mutable part of the object, as a value. */
    function State(): Loader
      reads this
    {
      Loader(lastFileSize, observable, observableOpen, contentStream, streamsCreated)
    }

    /** The getters of the final fields, and of the two stream fields. */
    function GetFriendlyUrl(): string { friendlyUrl }
    function IsTailing(): bool { tailing }
    function IsGzipped(): bool { gzipped }
    function GetInputStreamBufferedStart(): seq<byte> { probe }
    function GetObservableInputStreamImpl(): Tracked reads this { observable }
    function GetContentInputStream(): Consumer reads this { contentStream }

    /** Sets the fields to what construction computed. */
    constructor Init(friendlyUrl: string, tailing: bool, result: Opened)
      ensures this.friendlyUrl == friendlyUrl && this.tailing == tailing
      ensures gzipped == result.gzipped && probe == result.probe && State() == result.state
    {
      this.friendlyUrl := friendlyUrl;
      this.tailing := tailing;
      gzipped := result.gzipped;
      probe := result.probe;
      lastFileSize := result.state.lastFileSize;
      observable := result.state.active;
      observableOpen := result.state.activeOpen;
      contentStream := result.state.consumer;
      streamsCreated := result.state.nextSerial;
    }

    /**
     * The one- and two-argument constructors: the three-argument one with `FROM_START`
     * (the one-argument constructor passes `tailing == false`).
     */
    static method OpenFromStart(file: FileView, friendlyUrl: string, tailing: bool, decoder: Decoder,
                                headerReply: Reply, probeReply: Reply, fault: OpenFault)
      returns (r: IoResult<LoadingInfo>)
      ensures r.Ok? <==> OpenSpec(file, FromStart, decoder, headerReply, probeReply, fault).Ok?
      ensures r.Ok? ==>
        var result := OpenSpec(file, FromStart, decoder, headerReply, probeReply, fault).value;
        && fresh(r.value)
        && r.value.friendlyUrl == friendlyUrl && r.value.tailing == tailing
        && r.value.gzipped == result.gzipped && r.value.probe == result.probe
        && r.value.State() == result.state
      ensures r.Ok? ==>
        && r.value.gzipped == CheckIfIsGzipped(file.content, headerReply)
        && r.value.lastFileSize == (if file.hasContent then |file.content| else 0)
        && r.value.GetObservableInputStreamImpl() == Tracked(0, 0, 0)
        && r.value.GetContentInputStream() == Layer(r.value.gzipped, Tracked(0, 0, 0))
    {
      r := Open(file, friendlyUrl, tailing, FromStart, decoder, headerReply, probeReply, fault);
    }

    /**
     * `loadProbe`: a `byte[buffSize]` filled by one read, and a ByteArrayOutputStream
     * that receives the bytes read when there are any.
     */
    static method LoadProbe(source: seq<byte>, buffSize: nat, reply: Reply) returns (probe: IoResult<seq<byte>>)
      ensures probe == Sniff.LoadProbe(source, buffSize, reply)
      ensures probe.Ok? ==> |probe.value| <= buffSize && probe.value <= source
    {
      var bout: seq<byte> := [];
      var buff := new byte[buffSize];
      var r := Read(source, buffSize, reply);
      if r.ReadFailed? {
        return IOException;
      }
      var read := ReadLength(r);
      if r.Bytes? {
        forall i | 0 <= i < |r.data| {
          buff[i] := r.data[i];
        }
      }
      if read > 0 {
        bout := bout + buff[0..read];
        assert bout == Buffer(buffSize, r)[..read];
      }
      assert read > 0 ==> Sniff.LoadProbe(source, buffSize, reply) == Ok(Buffer(buffSize, r)[..read]);
      assert read <= 0 ==> Sniff.LoadProbe(source, buffSize, reply) == Ok([]);
      return Ok(bout);
    }

    /**
     * `ungzip`: a GZIPInputStream over the stream (its constructor may throw), then
     * the same single bounded read into a `byte[size]`.
     */
    static method Ungzip(source: seq<byte>, decoder: Decoder, size: nat, reply: Reply) returns (probe: IoResult<seq<byte>>)
      ensures probe == Sniff.Ungzip(source, decoder, size, reply)
      ensures probe.Ok? ==> decoder(source).Ok? && |probe.value| <= size && probe.value <= decoder(source).value
    {
      var gzipIn := decoder(source);
      if gzipIn.IOException? {
        return IOException;
      }
      probe := LoadProbe(gzipIn.value, size, reply);
    }

    /**
     * The three-argument constructor `LoadingInfo(fileObject, tailing, openMode)`;
     * IOException when it throws. `friendlyUrl` is what the file's name reports.
     */
    static method Open(file: FileView, friendlyUrl: string, tailing: bool, mode: OpenMode, decoder: Decoder,
                       headerReply: Reply, probeReply: Reply, fault: OpenFault)
      returns (r: IoResult<LoadingInfo>)
      ensures r.Ok? <==> OpenSpec(file, mode, decoder, headerReply, probeReply, fault).Ok?
      ensures r.Ok? ==>
        var result := OpenSpec(file, mode, decoder, headerReply, probeReply, fault).value;
        && fresh(r.value)
        && r.value.friendlyUrl == friendlyUrl && r.value.tailing == tailing
        && r.value.gzipped == result.gzipped && r.value.probe == result.probe
        && r.value.State() == result.state
    {
      if fault == RefreshFails || fault == PeekOpenFails {
        return IOException;
      }
      var isGzipped := CheckIfIsGzipped(file.content, headerReply);
      var probe: IoResult<seq<byte>>;
      if isGzipped {
        probe := Ungzip(file.content, decoder, PROBE_SIZE, probeReply);
      } else {
        probe := LoadProbe(file.content, PROBE_SIZE, probeReply);
      }
      if probe.IOException? {
        return IOException;
      }

      var active: Tracked;
      var consumer: Consumer;
      if mode == FromStart || isGzipped {
        if fault == ReRefreshFails || fault == StreamOpenFails {
          return IOException;
        }
        active := Tracked(0, 0, 0);
        if isGzipped {
          if fault == GzipLayerFails {
            return IOException;
          }
          consumer := Gunzip(active);
        } else {
          consumer := Direct(active);
        }
      } else {
        if fault == RandomAccessFails {
          return IOException;
        }
        var length := |file.content|;
        if fault == SeekFails || fault == TailStreamFails {
          return IOException;
        }
        active := Tracked(0, length, 0);
        consumer := Direct(active);
      }

      var last := 0;
      if fault == TypeFails {
        return IOException;
      }
      if file.hasContent {
        if fault == SizeFails {
          return IOException;
        }
        last := |file.content|;
      }
      var info := new LoadingInfo.Init(friendlyUrl, tailing, Opened(isGzipped, probe.value, Loader(last, active, true, consumer, 1)));
      return Ok(info);
    }

    /** `resetLastFileSize`: record the size the file reports now (`size`), unless reading it throws. */
    method ResetLastFileSize(size: IoResult<nat>) returns (ok: bool)
      modifies this`lastFileSize
      ensures ok <==> size.Ok?
      ensures State() == if size.Ok? then old(State()).(lastFileSize := size.value) else old(State())
      ensures old(Inv(gzipped, State())) ==>
        (Inv(gzipped, State()) <==> size.IOException? || size.value >= old(observable.startOffset))
    {
      if size.IOException? {
        return false;
      }
      lastFileSize := size.value;
      return true;
    }

    /** `reloadIfFileSizeChanged`; false when it throws. */
    method ReloadIfFileSizeChanged(poll: Poll) returns (ok: bool)
      modifies this
      ensures State() == Reconcile(gzipped, old(State()), poll).state
      ensures ok == Reconcile(gzipped, old(State()), poll).ok
      ensures GetObservableInputStreamImpl() == State().active && GetContentInputStream() == State().consumer
    {
      if poll.fault == ReloadRefreshFails || poll.fault == ReloadSizeFails {
        return false;
      }
      var last := lastFileSize;
      var currentSize := poll.size;
      if currentSize > last {
        observableOpen := false;
        if poll.fault == ReloadRandomAccessFails || poll.fault == ReloadSeekFails {
          return false;
        }
        lastFileSize := currentSize;
        if poll.fault == ReloadTailStreamFails {
          return false;
        }
        observable, observableOpen, streamsCreated := Tracked(streamsCreated, last, last), true, streamsCreated + 1;
        if gzipped {
          if poll.fault == ReloadGzipFails {
            return false;
          }
          contentStream := Gunzip(observable);
        } else {
          contentStream := Direct(observable);
        }
      } else if currentSize < last {
        observableOpen := false;
        if poll.fault == ReloadReopenFails {
          return false;
        }
        observable, observableOpen, streamsCreated := Tracked(streamsCreated, 0, 0), true, streamsCreated + 1;
        if gzipped {
          if poll.fault == ReloadGzipFails {
            return false;
          }
          contentStream := Gunzip(observable);
        } else {
          contentStream := Direct(observable);
        }
        if poll.fault == ReloadResizeFails {
          return false;
        }
        lastFileSize := poll.resize;
      }
      return true;
    }
  }

  /**
   * A client of the class: a plain 100-byte log opened for tailing, grown to 150
   * bytes, rotated down to 20 bytes (with 25 there by the second size read), then
   * polled once more without change.
   */
  method TailScenario()
  {
    var log := seq(100, _ => 'A' as int as byte);
    var noGzip: Decoder := _ => IOException;
    var r := LoadingInfo.Open(FileView(log, true), "file:///var/log/app.log", true, FromEnd, noGzip,
                              Deliver(2), Deliver(PROBE_SIZE), NoOpenFault);
    assert r.Ok?;
    var info := r.value;
    assert !info.gzipped && info.probe == log;
    assert info.observable == Tracked(0, 100, 0) && info.contentStream == Direct(info.observable);
    assert info.lastFileSize == 100;

    var ok := info.ReloadIfFileSizeChanged(Poll(150, 0, NoReloadFault));
    assert ok && info.observable == Tracked(1, 100, 100) && info.lastFileSize == 150;
    assert info.contentStream == Direct(info.observable);

    ok := info.ReloadIfFileSizeChanged(Poll(20, 25, NoReloadFault));
    assert ok && info.observable == Tracked(2, 0, 0) && info.lastFileSize == 25;

    ok := info.ReloadIfFileSizeChanged(Poll(25, 0, NoReloadFault));
    assert ok && info.observable == Tracked(2, 0, 0) && info.lastFileSize == 25 && info.streamsCreated == 3;
  }
}
