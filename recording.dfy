/** The recorder's session bookkeeping: the click gate in front of the event
    queue, the merge of the UI's chosen clicks into the action list, the
    one-way `recording` flag that turns a second stop into a no-op, and the
    save that writes nothing for an empty action list and otherwise never
    overwrites an existing default output file. The browser, the UI task and
    the timeouts are not modelled; the file system is an object holding a map
    from paths to written documents. */
module Recording {
  import opened Values
  import opened OutputNames
  import Tui

  predicate NoDup<T(==)>(s: seq<T>)
  {
    forall i, j :: 0 <= i < j < |s| ==> s[i] != s[j]
  }

  // ---------------------------------------------------------------------------
  // Merging the chosen clicks into the action list

  /** The action list after appending, in order, each chosen click that is not
      already in it. */
  function Merged(acts: seq<Item>, items: seq<Item>): seq<Item>
    decreases |items|
  {
    if items == [] then acts
    else
      var m := Merged(acts, items[..|items| - 1]);
      var x := items[|items| - 1];
      if x in m then m else m + [x]
  }

  /** The merge of an exit message's payload: only a list is merged. */
  function MergedPayload(acts: seq<Item>, payload: Payload): seq<Item>
  {
    if payload.ItemList? then Merged(acts, payload.items) else acts
  }

  /** The old action list stays a prefix of the merged one. */
  lemma {:induction false} MergedPrefix(acts: seq<Item>, items: seq<Item>)
    ensures |Merged(acts, items)| >= |acts|
    ensures Merged(acts, items)[..|acts|] == acts
    decreases |items|
  {
    if items != [] {
      MergedPrefix(acts, items[..|items| - 1]);
    }
  }

  /** After the merge every chosen click is in the action list, and nothing
      else was added. */
  lemma {:induction false} MergedElements(acts: seq<Item>, items: seq<Item>)
    ensures forall x :: x in Merged(acts, items) <==> x in acts || x in items
    decreases |items|
  {
    if items != [] {
      var init := items[..|items| - 1];
      MergedElements(acts, init);
      assert items == init + [items[|items| - 1]];
    }
  }

  /** Every appended click was new to the old list and is appended once. */
  lemma {:induction false} MergedAppendsFresh(acts: seq<Item>, items: seq<Item>)
    ensures var r := Merged(acts, items);
      && |r| >= |acts|
      && (forall p :: |acts| <= p < |r| ==> r[p] !in acts)
      && NoDup(r[|acts|..])
    decreases |items|
  {
    if items != [] {
      var init := items[..|items| - 1];
      MergedAppendsFresh(acts, init);
      MergedPrefix(acts, init);
      var m := Merged(acts, init);
      var x := items[|items| - 1];
      if x !in m {
        var r := m + [x];
        assert r[|acts|..] == m[|acts|..] + [x];
        forall p | |acts| <= p < |r|
          ensures r[p] !in acts
        {
          if p == |m| {
            assert acts == m[..|acts|];
          }
        }
      }
    }
  }

  /** An action list without duplicates stays without duplicates. */
  lemma MergedNoDup(acts: seq<Item>, items: seq<Item>)
    requires NoDup(acts)
    ensures NoDup(Merged(acts, items))
  {
  }

  /** The index of the first occurrence of `x` in `s`. */
  function FirstIndex(s: seq<Item>, x: Item): (r: nat)
    requires x in s
    ensures r < |s| && s[r] == x
    ensures forall j :: 0 <= j < r ==> s[j] != x
  {
    if s[0] == x then 0 else 1 + FirstIndex(s[1..], x)
  }

  lemma FirstIndexInPrefix(s: seq<Item>, x: Item, n: nat)
    requires n <= |s| && x in s[..n]
    ensures FirstIndex(s, x) == FirstIndex(s[..n], x)
  {
  }

  /** The appended clicks keep the order in which they first occur among the
      chosen ones. */
  lemma {:induction false} MergedKeepsOrder(acts: seq<Item>, items: seq<Item>)
    ensures var r := Merged(acts, items);
      forall p, q :: |acts| <= p < q < |r| ==>
        r[p] in items && r[q] in items && FirstIndex(items, r[p]) < FirstIndex(items, r[q])
    decreases |items|
  {
    if items != [] {
      var n := |items|;
      var init := items[..n - 1];
      var x := items[n - 1];
      MergedKeepsOrder(acts, init);
      MergedAppendsFresh(acts, init);
      MergedElements(acts, init);
      var m := Merged(acts, init);
      var r := Merged(acts, items);
      assert init == items[..n - 1];
      forall p | |acts| <= p < |m|
        ensures m[p] in init && m[p] in items && FirstIndex(items, m[p]) == FirstIndex(init, m[p])
      {
        assert m[p] !in acts;
        FirstIndexInPrefix(items, m[p], n - 1);
      }
      if x !in m {
        assert x !in init;
        assert FirstIndex(items, x) == n - 1;
      }
    }
  }

  // ---------------------------------------------------------------------------
  // Output

  /** What `json.dump` writes: the URL and the action list. */
  datatype Document = Document(url: string, actions: seq<Item>)

  /** The file system: the working directory and the documents at each path. */
  class FileStore {
    const cwd: string
    var files: map<string, Document>

    constructor (cwd: string, files: map<string, Document>)
      ensures this.cwd == cwd && this.files == files
    {
      this.cwd := cwd;
      this.files := files;
    }
  }

  /** An explicit output path is used as given when it is a non-empty string;
      otherwise the default path search runs. */
  predicate HasCustomPath(output: Option<string>)
  {
    output.Some? && output.value != ""
  }

  function OutputPath(output: Option<string>, cwd: string, netloc: string, existing: set<string>): string
  {
    if HasCustomPath(output) then output.value else DefaultPath(cwd, netloc, existing)
  }

  /** The files after a save of `actions`. */
  function AfterSave(files: map<string, Document>, url: string, output: Option<string>, cwd: string,
                     netloc: string, actions: seq<Item>): map<string, Document>
  {
    if actions == [] then files
    else files[OutputPath(output, cwd, netloc, files.Keys) := Document(url, actions)]
  }

  /** An empty action list writes nothing. A non-empty one writes exactly one
      document, holding the URL and the actions; without an explicit path it
      goes to a new file and every existing file keeps its content. */
  lemma SaveEffect(files: map<string, Document>, url: string, output: Option<string>, cwd: string,
                   netloc: string, actions: seq<Item>)
    ensures actions == [] ==> AfterSave(files, url, output, cwd, netloc, actions) == files
    ensures actions != [] ==>
      var r := AfterSave(files, url, output, cwd, netloc, actions);
      var p := OutputPath(output, cwd, netloc, files.Keys);
      && r.Keys == files.Keys + {p}
      && r[p] == Document(url, actions)
      && (forall q :: q in files && q != p ==> r[q] == files[q])
    ensures actions != [] && !HasCustomPath(output) ==>
      var r := AfterSave(files, url, output, cwd, netloc, actions);
      && |r.Keys| == |files.Keys| + 1
      && (forall q :: q in files ==> q in r && r[q] == files[q])
  {
  }

  /** Quitting without saving on a session that recorded nothing writes no file. */
  lemma QuitOnEmptySessionWritesNothing(files: map<string, Document>, url: string, output: Option<string>,
                                        cwd: string, netloc: string)
    ensures AfterSave(files, url, output, cwd, netloc, MergedPayload([], Tui.QuitMessage.payload)) == files
  {
  }

  // ---------------------------------------------------------------------------
  // The recorder object

  /** The message a stop puts on the result queue to tell the UI to close. */
  const StopMessage: Message := Message(Exit, NonList)

  /** The index of the first exit message in a result queue, or its length. */
  function FirstExit(q: seq<Message>): (k: nat)
    ensures k <= |q|
    ensures k < |q| ==> q[k].action == Exit
    ensures forall j :: 0 <= j < k ==> q[j].action != Exit
  {
    if q == [] then 0 else if q[0].action == Exit then 0 else 1 + FirstExit(q[1..])
  }

  class Recorder {
    const url: string
    /** The host part of `url` (its `netloc`), supplied with the URL. */
    const netloc: string
    const output: Option<string>
    var actions: seq<Item>
    var recording: bool
    /** Whether `shutdown_event` is set. */
    var shutdownSet: bool
    var eventQueue: seq<Item>
    var resultQueue: seq<Message>

    /** The action list has no duplicates, and the shutdown event is set
        exactly when recording has ended. */
    ghost predicate Valid()
      reads this
    {
      NoDup(actions) && (shutdownSet <==> !recording)
    }

    constructor (url: string, netloc: string, output: Option<string>)
      ensures this.url == url && this.netloc == netloc && this.output == output
      ensures actions == [] && recording && !shutdownSet
      ensures eventQueue == [] && resultQueue == []
      ensures Valid()
    {
      this.url := url;
      this.netloc := netloc;
      this.output := output;
      actions := [];
      recording := true;
      shutdownSet := false;
      eventQueue := [];
      resultQueue := [];
    }

    /** A click from the page binding: queued at the back while recording,
        dropped afterwards. */
    method OnClick(data: Item)
      requires Valid()
      modifies this`eventQueue
      ensures Valid()
      ensures eventQueue == if recording then old(eventQueue) + [data] else old(eventQueue)
    {
      if !recording {
        return;
      }
      eventQueue := eventQueue + [data];
    }

    /** The output path; `existing` is the set of paths that exist. */
    method MakeOutputPath(cwd: string, existing: set<string>) returns (p: string)
      ensures p == OutputPath(output, cwd, netloc, existing)
    {
      if HasCustomPath(output) {
        return output.value;
      }
      var base, domain := CrawlDir(cwd), StripWww(netloc);
      var n := 1;
      while Candidate(base, domain, n) in existing
        invariant n >= 1
        invariant forall m :: 1 <= m < n ==> Candidate(base, domain, m) in existing
        invariant FirstFree(base, domain, existing, n) == FirstFree(base, domain, existing, 1)
        decreases existing - Tried(base, domain, n)
      {
        TriedGrows(base, domain, n);
        n := n + 1;
      }
      p := Candidate(base, domain, n);
    }

    /** Writes the actions, unless there are none. */
    method Save(fs: FileStore)
      modifies fs`files
      ensures fs.files == AfterSave(old(fs.files), url, output, fs.cwd, netloc, actions)
    {
      if actions == [] {
        // "No elements recorded."
        return;
      }
      var path := MakeOutputPath(fs.cwd, fs.files.Keys);
      fs.files := fs.files[path := Document(url, actions)];
    }

    /** The merge step of an exit message. */
    method MergeExit(payload: Payload)
      requires Valid()
      modifies this`actions
      ensures actions == MergedPayload(old(actions), payload)
      ensures Valid()
    {
      if payload.ItemList? {
        var items := payload.items;
        var k := 0;
        while k < |items|
          invariant 0 <= k <= |items|
          invariant actions == Merged(old(actions), items[..k])
        {
          assert items[..k + 1][..k] == items[..k];
          if items[k] !in actions {
            actions := actions + [items[k]];
          }
          k := k + 1;
        }
        assert items[..|items|] == items;
      }
      MergedNoDup(old(actions), if payload.ItemList? then payload.items else []);
    }

    /** Stops the session: a no-op once recording has ended; otherwise tells
        the UI to close, saves, and clears `recording` for good. */
    method SafeStop(fs: FileStore)
      requires Valid()
      modifies this, fs
      ensures !old(recording) ==>
        && recording == old(recording) && shutdownSet == old(shutdownSet)
        && actions == old(actions) && eventQueue == old(eventQueue) && resultQueue == old(resultQueue)
        && fs.files == old(fs.files)
      ensures old(recording) ==>
        && !recording && shutdownSet
        && resultQueue == old(resultQueue) + [StopMessage]
        && fs.files == AfterSave(old(fs.files), url, output, fs.cwd, netloc, old(actions))
        && actions == old(actions) && eventQueue == old(eventQueue)
      ensures Valid()
    {
      if !recording {
        return;
      }
      resultQueue := resultQueue + [StopMessage];
      // Closing the browser context and the browser is not modelled.
      Save(fs);
      // Waiting for the UI task is not modelled.
      recording := false;
      shutdownSet := true;
    }

    /** The result-queue consumer, over the messages queued so far: skips
        messages other than "exit"; on the first "exit" merges its payload,
        stops the session and returns. With no exit queued it returns once the
        queue is drained, where recorder.py waits for more. */
    method ConsumeUi(fs: FileStore)
      requires Valid()
      modifies this, fs
      ensures !(old(recording) && !old(shutdownSet)) ==>
        && recording == old(recording) && shutdownSet == old(shutdownSet)
        && actions == old(actions) && eventQueue == old(eventQueue) && resultQueue == old(resultQueue)
        && fs.files == old(fs.files)
      ensures old(recording) && !old(shutdownSet) && FirstExit(old(resultQueue)) == |old(resultQueue)| ==>
        && recording && !shutdownSet && resultQueue == []
        && actions == old(actions) && eventQueue == old(eventQueue) && fs.files == old(fs.files)
      ensures old(recording) && !old(shutdownSet) && FirstExit(old(resultQueue)) < |old(resultQueue)| ==>
        var k := FirstExit(old(resultQueue));
        var merged := MergedPayload(old(actions), old(resultQueue)[k].payload);
        && actions == merged
        && !recording && shutdownSet
        && resultQueue == old(resultQueue)[k + 1..] + [StopMessage]
        && fs.files == AfterSave(old(fs.files), url, output, fs.cwd, netloc, merged)
        && eventQueue == old(eventQueue)
      ensures Valid()
    {
      ghost var j := 0;
      while recording && !shutdownSet && resultQueue != []
        invariant recording == old(recording) && shutdownSet == old(shutdownSet)
        invariant actions == old(actions) && eventQueue == old(eventQueue) && fs.files == old(fs.files)
        invariant 0 <= j <= FirstExit(old(resultQueue))
        invariant resultQueue == old(resultQueue)[j..]
        invariant !(old(recording) && !old(shutdownSet)) ==> j == 0
        decreases |resultQueue|
      {
        var msg := resultQueue[0];
        resultQueue := resultQueue[1..];
        if msg.action == Exit {
          assert j == FirstExit(old(resultQueue));
          MergeExit(msg.payload);
          SafeStop(fs);
          return;
        }
        j := j + 1;
      }
    }
  }
}
