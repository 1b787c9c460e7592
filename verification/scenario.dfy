/** The layered configuration-loading scenario of pkg/errors/mocks_test.go:
    four consecutive codes registered at init, and a three-deep chain built
    by loadConfig over decodeConfig over readConfig. */
module ConfigScenario {
  import opened Results
  import opened Coders
  import opened Registry
  import opened CodedErrors

  /** The four codes, consecutive from 1000 as the iota block makes them. */
  const ConfigurationNotValid: int := 1000
  const ErrInvalidJSON: int := ConfigurationNotValid + 1
  const ErrEOF: int := ErrInvalidJSON + 1
  const ErrLoadConfigFailed: int := ErrEOF + 1

  lemma CodesAreConsecutive()
    ensures ConfigurationNotValid == 1000 && ErrInvalidJSON == 1001
    ensures ErrEOF == 1002 && ErrLoadConfigFailed == 1003
  {
  }

  const NotValidCoder: Coder := Coder(500, ConfigurationNotValid, "ConfigurationNotValid error")
  const InvalidJSONCoder: Coder := Coder(500, ErrInvalidJSON, "Data is not valid JSON")
  const EOFCoder: Coder := Coder(500, ErrEOF, "End of input")
  const LoadFailedCoder: Coder := Coder(500, ErrLoadConfigFailed, "Load configuration file failed")

  /** The coders the test file's init registers, in order. */
  const TestCoders: seq<Coder> := [NotValidCoder, InvalidJSONCoder, EOFCoder, LoadFailedCoder]

  /** The test file's init: Register for each of the four coders in order.
      None of them panics, since none has code 0; each code is filed with its
      coder and every other entry is left as it was. */
  function TestInit(t: Table): (r: Result<Table, Fault>)
    ensures r.Success?
    ensures Valid(t) ==> Valid(r.value)
    ensures r.value.Keys == t.Keys + {1000, 1001, 1002, 1003}
    ensures r.value[1000] == NotValidCoder && r.value[1001] == InvalidJSONCoder
    ensures r.value[1002] == EOFCoder && r.value[1003] == LoadFailedCoder
    ensures forall k :: k in t && !(1000 <= k <= 1003) ==> r.value[k] == t[k]
  {
    assert CodesOf(TestCoders) == {1000, 1001, 1002, 1003} by {
      assert TestCoders[0].Code() == 1000 && TestCoders[1].Code() == 1001;
      assert TestCoders[2].Code() == 1002 && TestCoders[3].Code() == 1003;
    }
    assert LastWithCode(TestCoders, 0) && LastWithCode(TestCoders, 1);
    assert LastWithCode(TestCoders, 2) && LastWithCode(TestCoders, 3);
    RegisterAll(t, TestCoders)
  }

  /** The table both init functions leave: the sentinel and the four test
      coders. */
  const TestTableContents: Table := map[
    0 := Unknown,
    1000 := Coder(500, 1000, "ConfigurationNotValid error"),
    1001 := Coder(500, 1001, "Data is not valid JSON"),
    1002 := Coder(500, 1002, "End of input"),
    1003 := Coder(500, 1003, "Load configuration file failed")]

  /** From a table holding only the sentinel, the test init yields exactly
      the sentinel and the four test coders. */
  lemma TestTableFrom(t: Table)
    requires t.Keys == {0} && t[0] == Unknown
    ensures TestInit(t) == Success(TestTableContents)
  {
    var r := TestInit(t).value;
    assert r.Keys == TestTableContents.Keys;
    assert r == TestTableContents;
  }

  /** After both init functions, the table holds exactly the sentinel and
      the four test coders, each answering HTTP status 500. */
  lemma TestTable()
    ensures TestInit(Init()) == Success(TestTableContents)
    ensures forall c :: c in TestTableContents ==> TestTableContents[c].HTTPStatus() == 500
  {
    TestTableFrom(Init());
  }

  /** readConfig: a coded node whose cause is an uncoded error. */
  function ReadConfig(): (r: Error)
    ensures r.WithCode? && r.code == ErrEOF && r.cause.Plain?
  {
    Wrapc(Plain("read: end of input"), ErrEOF, "could not read configuration file")
  }

  /** decodeConfig: wraps readConfig's error with ErrInvalidJSON. */
  function DecodeConfig(): (r: Error)
    ensures r.WithCode? && r.code == ErrInvalidJSON && r.cause == ReadConfig()
  {
    Wrapc(ReadConfig(), ErrInvalidJSON, "could not decode configuration data")
  }

  /** loadConfig: wraps decodeConfig's error with ConfigurationNotValid. */
  function LoadConfig(): (r: Error)
    ensures r.WithCode? && r.code == ConfigurationNotValid && r.cause == DecodeConfig()
  {
    Wrapc(DecodeConfig(), ConfigurationNotValid, "service configuration could not be loaded")
  }

  /** The chain built by loadConfig has three coded nodes, carrying 1000,
      1001 and 1002 from outermost to innermost, over an uncoded error. */
  lemma LoadConfigChain()
    ensures Depth(LoadConfig()) == 3
    ensures HasCodeAt(LoadConfig(), 0, 1000)
    ensures HasCodeAt(LoadConfig(), 1, 1001)
    ensures HasCodeAt(LoadConfig(), 2, 1002)
    ensures Follow(LoadConfig(), 3).Plain?
  {
  }

  /** Classifying loadConfig's error yields the coder of the outermost code. */
  lemma ParseLoadConfig()
    ensures ParseCoder(TestInit(Init()).value, LoadConfig())
         == Some(Coder(500, 1000, "ConfigurationNotValid error"))
  {
    TestTable();
  }

  /** IsCode finds exactly the three codes on the chain: 1003 is registered
      but absent from the chain, and every other code is absent too. */
  lemma IsCodeLoadConfig(code: int)
    ensures IsCode(LoadConfig(), code) <==> code == 1000 || code == 1001 || code == 1002
  {
    assert IsCode(ReadConfig(), code) <==> code == 1002;
    assert IsCode(DecodeConfig(), code) <==> code == 1001 || IsCode(ReadConfig(), code);
    assert IsCode(LoadConfig(), code) <==> code == 1000 || IsCode(DecodeConfig(), code);
  }
}
