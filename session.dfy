/** One recording session end to end, from the operations' contracts alone:
    three clicks reach the page binding (the third a repeat of the first),
    the operator selects both distinct clicks and saves, and the recorder
    merges the choice and writes it, oldest first, to the first free default
    path. */
module Session {
  import opened Values
  import opened OutputNames
  import opened Tui
  import opened Recording

  const Login: Item := map["text" := Str("Login")]
  const Cart: Item := map["href" := Str("/cart")]
  const Url: string := "https://www.shop.example/"
  const Cwd: string := "/home/op"

  /** The buffer after the clicks Login, Cart, Login: the repeat is dropped and
      the newest click is on top. */
  lemma ClicksDeduplicated()
    ensures var b := IngestAll(Empty, [Login, Cart, Login]);
      b.items == [Cart, Login] && b.selected == {} && b.cursor == 0
  {
    assert SigOf(Login) != SigOf(Cart);
    var b1 := Ingest(Empty, Login);
    var b2 := Ingest(b1, Cart);
    assert b1.items == [Login] && b1.itemsSig == {SigOf(Login)} && b1.selected == {};
    assert b2.items == [Cart, Login] && SigOf(Login) in b2.itemsSig && b2.selected == {};
    assert Ingest(b2, Login) == b2;
    assert [Login, Cart, Login][1..] == [Cart, Login];
    assert [Cart, Login][1..] == [Login];
    assert [Login][1..] == [];
    assert IngestAll(b2, [Login]) == IngestAll(b2, []) == b2;
    assert IngestAll(b1, [Cart, Login]) == IngestAll(b2, [Login]);
    assert IngestAll(Empty, [Login, Cart, Login]) == IngestAll(b1, [Cart, Login]);
  }

  lemma BothAscending()
    ensures Ascending({0, 1}, 2) == [0, 1]
  {
  }

  /** Toggle the top click, move down, toggle again, save: the result is the
      reverse of display order, oldest first. */
  lemma SelectBothAndSave(b: Buffer)
    requires b.items == [Cart, Login] && b.selected == {} && b.cursor == 0
    ensures Chosen(Toggle(KeyPressed(Toggle(b), "down"))) == [Login, Cart]
  {
    var c := Toggle(KeyPressed(Toggle(b), "down"));
    assert c.selected == {0, 1} && c.items == [Cart, Login];
    BothAscending();
    var p := Pick([Cart, Login], [0, 1]);
    assert |p| == 2 && p[0] == Cart && p[1] == Login;
    var r := Reverse(p);
    assert r == [Login, Cart];
  }

  lemma MergedChoice()
    ensures Merged([], [Login, Cart]) == [Login, Cart]
  {
    assert Login != Cart by {
      assert "text" in Login;
    }
    assert [Login, Cart][..1] == [Login];
    assert [Login][..0] == [];
    assert Merged([], [Login]) == [Login];
  }

  lemma FirstNameFree()
    ensures OutputPath(None, Cwd, "www.shop.example", {}) == Candidate(CrawlDir(Cwd), "shop.example", 1)
  {
    assert "www.shop.example"[..4] == "www.";
    assert StripWww("www.shop.example") == "shop.example";
    assert FirstFree(CrawlDir(Cwd), "shop.example", {}, 1) == 1;
  }

  /** Merging the choice into an empty action list and saving with no file
      present writes one file named after the host without `www.`. */
  lemma SavedToFirstName()
    ensures AfterSave(map[], Url, None, Cwd, "www.shop.example", Merged([], [Login, Cart]))
            == map[Candidate(CrawlDir(Cwd), "shop.example", 1) := Document(Url, [Login, Cart])]
  {
    MergedChoice();
    var none: map<string, Document> := map[];
    assert none.Keys == {};
    FirstNameFree();
  }

  /** The operator's part: the clicks reach the UI, both are selected, save. */
  method CurateClicks(events: seq<Item>) returns (m: Message)
    requires events == [Login, Cart, Login]
    ensures m == Message(Exit, ItemList([Login, Cart]))
  {
    var ui := new ClickUI();
    ui.EventWorker(events);
    ghost var b := ui.State();
    ClicksDeduplicated();
    ui.ActionToggle();
    ui.OnKey("down");
    ui.ActionToggle();
    SelectBothAndSave(b);
    m := ui.ActionSaveQuitApp();
  }

  method SaveTwoClicks() returns (written: map<string, Document>)
    ensures written == map[Candidate(CrawlDir(Cwd), "shop.example", 1) := Document(Url, [Login, Cart])]
  {
    var rec := new Recorder(Url, "www.shop.example", None);
    var fs := new FileStore(Cwd, map[]);
    rec.OnClick(Login);
    rec.OnClick(Cart);
    rec.OnClick(Login);
    var m := CurateClicks(rec.eventQueue);
    rec.resultQueue := rec.resultQueue + [m];
    assert rec.resultQueue == [m];
    assert FirstExit([m]) == 0;
    rec.ConsumeUi(fs);
    SavedToFirstName();
    written := fs.files;
  }
}
