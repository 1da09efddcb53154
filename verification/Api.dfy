/**
 * The public operations of the API root (`Elympics`): `connect`,
 * `getHighscores` and the `submitHighscore` overloads.  Each builds a
 * `Requester` on the root and sends a form-encoded POST; what it returns is
 * stated through `Protocol.Call`.
 */
module Api {
  import opened Wire
  import opened Params
  import Protocol
  import Root
  import Builder
  import Highscores
  import R = Requester

  const HighscoresPath: string := "/getHighscores"
  const SubmitPath: string := "/submitHighscore"

  /** `with("key", key)`: nothing when the key is null. */
  function KeyArgs(key: Option<string>): seq<Entry> {
    if key.Some? then [Entry("key", Some(Str(key.value)))] else []
  }

  /** The parameters of `submitHighscore`, in order, each dropped when null. */
  function SubmitArgs(key: Option<string>, name: Option<string>, score: Option<int>): seq<Entry> {
    KeyArgs(key)
    + (if name.Some? then [Entry("name", Some(Str(name.value)))] else [])
    + (if score.Some? then [Entry("score", Some(Int(score.value)))] else [])
  }

  /** A fresh `Requester` on the root with `method("POST")` and the given parameters. */
  function PostPlan(apiUrl: string, key: Option<string>, connected: bool, args: seq<Entry>): Protocol.Plan {
    Protocol.Plan(apiUrl, key, connected, args, [], "POST", R.FormContentType, false)
  }

  /** The state before the first request: no connection yet, no body stream. */
  function Start(next: nat): Protocol.State {
    Protocol.State(next, None, Protocol.NoBody)
  }

  /** `Arrays.asList`: a null array throws. */
  function AsList(o: Protocol.Outcome<Highscores.Highscore>): (r: Protocol.Outcome<Highscores.Highscore>)
    ensures r.Returned? ==> r == o && !o.value.Null?
    ensures o.Returned? && o.value.Null? ==> r == Protocol.Raised(NullPointer)
    ensures !o.Returned? ==> r == o
  {
    if o.Returned? && o.value.Null? then Protocol.Raised(NullPointer) else o
  }

  /** `Elympics.connect(key)`: the production endpoint, the key, the default connector. */
  method Connect(key: Option<string>) returns (e: Root.Elympics)
    ensures fresh(e)
    ensures e.apiUrl == Root.ElympicsUrl && e.key == key && e.connector == Some(Root.Default)
  {
    var builder := new Builder.ElympicsBuilder();
    builder := builder.WithKey(key);
    e := builder.Build();
  }

  /** `getHighscores`: every page of the highscore array, concatenated. */
  method GetHighscores(root: Root.Elympics, codec: Protocol.Codec<Highscores.Highscore>, net: R.Transport)
    returns (o: Protocol.Outcome<Highscores.Highscore>)
    requires net.Valid()
    modifies net
    ensures net.Valid()
    ensures var call := Protocol.Call(PostPlan(root.apiUrl, root.key, root.connector.Some?, KeyArgs(root.key)),
                                      HighscoresPath, Protocol.ArrayOf, codec, net.script, Start(old(net.next)));
      o == AsList(call.0) && net.next == call.1.next
  {
    var request := new R.Requester(root);
    request := request.WithString("key", root.key);
    request := request.SetMethod("POST");
    assert request.Plan() == PostPlan(root.apiUrl, root.key, root.connector.Some?, KeyArgs(root.key));
    assert request.Snapshot(net) == Start(net.next);
    var result := request.To(HighscoresPath, Protocol.ArrayOf, codec, net);
    o := AsList(result);
  }

  /** `submitHighscore(String, BigInteger)`: the response body is read and discarded. */
  method SubmitHighscore(root: Root.Elympics, name: Option<string>, score: Option<int>,
                         codec: Protocol.Codec<Highscores.Highscore>, net: R.Transport)
    returns (o: Protocol.Outcome<Highscores.Highscore>)
    requires net.Valid()
    modifies net
    ensures net.Valid()
    ensures (o, net.next) == var call := Protocol.Call(PostPlan(root.apiUrl, root.key, root.connector.Some?, SubmitArgs(root.key, name, score)),
                                      SubmitPath, Protocol.Discard, codec, net.script, Start(old(net.next)));
      (call.0, call.1.next)
  {
    var request := new R.Requester(root);
    request := request.WithString("key", root.key);
    request := request.WithString("name", name);
    request := request.WithBigInteger("score", score);
    request := request.SetMethod("POST");
    assert request.args == SubmitArgs(root.key, name, score);
    assert request.Plan() == PostPlan(root.apiUrl, root.key, root.connector.Some?, SubmitArgs(root.key, name, score));
    assert request.Snapshot(net) == Start(net.next);
    o := request.To(SubmitPath, Protocol.Discard, codec, net);
  }

  /** `submitHighscore(ElympicsHighscore)`: its name and score. */
  method SubmitHighscoreOf(root: Root.Elympics, highscore: Highscores.Highscore,
                           codec: Protocol.Codec<Highscores.Highscore>, net: R.Transport)
    returns (o: Protocol.Outcome<Highscores.Highscore>)
    requires net.Valid()
    modifies net
    ensures net.Valid()
    ensures (o, net.next) == var call := Protocol.Call(PostPlan(root.apiUrl, root.key, root.connector.Some?, SubmitArgs(root.key, highscore.name, highscore.score)),
                                      SubmitPath, Protocol.Discard, codec, net.script, Start(old(net.next)));
      (call.0, call.1.next)
  {
    o := SubmitHighscore(root, highscore.name, highscore.score, codec, net);
  }

  /** `submitHighscore(String, long)`: the score is never null. */
  method SubmitLong(root: Root.Elympics, name: Option<string>, score: int64,
                    codec: Protocol.Codec<Highscores.Highscore>, net: R.Transport)
    returns (o: Protocol.Outcome<Highscores.Highscore>)
    requires net.Valid()
    modifies net
    ensures net.Valid()
    ensures (o, net.next) == var call := Protocol.Call(PostPlan(root.apiUrl, root.key, root.connector.Some?, SubmitArgs(root.key, name, Some(score))),
                                      SubmitPath, Protocol.Discard, codec, net.script, Start(old(net.next)));
      (call.0, call.1.next)
  {
    o := SubmitHighscore(root, name, Some(score), codec, net);
  }

  // ---------------------------------------------------------------------------
  // What the requests look like

  lemma NoAmpersandInNumber(n: int)
    ensures '&' !in IntText(n)
  {
    var s := NatText(if n < 0 then -n else n);
    assert '&' !in s by {
      forall i | 0 <= i < |s| ensures s[i] != '&' {
        assert '0' <= s[i] <= '9';
      }
    }
    if n < 0 {
      assert IntText(n) == "-" + s;
    }
  }

  /** The `(key, value)` pairs a form body lists, values as `String.valueOf` writes them. */
  function Pairs(args: seq<Entry>): (ps: seq<(string, string)>)
    ensures |ps| == |args|
    ensures forall j :: 0 <= j < |args| ==> ps[j] == (args[j].key, ValueOf(args[j].value))
  {
    if args == [] then [] else Pairs(args[..|args| - 1]) + [(args[|args| - 1].key, ValueOf(args[|args| - 1].value))]
  }

  lemma {:induction false} PairsAppend(a: seq<Entry>, b: seq<Entry>)
    ensures Pairs(a + b) == Pairs(a) + Pairs(b)
  {
    var l := Pairs(a + b);
    var r := Pairs(a) + Pairs(b);
    forall j | 0 <= j < |l| ensures l[j] == r[j] {
      if j < |a| {
        assert (a + b)[j] == a[j];
      } else {
        assert (a + b)[j] == b[j - |a|];
      }
    }
  }

  /**
   * What a server splitting the submitted form body at `&` and `=` reads:
   * the key, the name and the decimal score, each only when not null, in
   * that order, provided neither the key nor the name holds `&` (values are
   * not encoded).  The score field parses back to the score.
   */
  lemma SubmitReadsBack(key: Option<string>, name: Option<string>, score: Option<int>)
    requires key.Some? || name.Some? || score.Some?
    requires key.Some? ==> '&' !in key.value
    requires name.Some? ==> '&' !in name.value
    ensures FormBody(SubmitArgs(key, name, score)).Ok?
    ensures Fields(FormBody(SubmitArgs(key, name, score)).value)
         == (if key.Some? then [("key", key.value)] else [])
          + (if name.Some? then [("name", name.value)] else [])
          + (if score.Some? then [("score", IntText(score.value))] else [])
    ensures score.Some? ==> ParseInt(IntText(score.value)) == score
  {
    var args := SubmitArgs(key, name, score);
    if score.Some? {
      IntTextRoundTrip(score.value);
    }
    SubmitFieldsPlain(key, name, score);
    FormReadsBack(args);
    assert Fields(FormBody(args).value) == Pairs(args);
    SubmitPairs(key, name, score);
  }

  /** No submitted key holds `&` or `=`, and no value holds `&` when the key and name do not. */
  lemma SubmitFieldsPlain(key: Option<string>, name: Option<string>, score: Option<int>)
    requires key.Some? ==> '&' !in key.value
    requires name.Some? ==> '&' !in name.value
    ensures var args := SubmitArgs(key, name, score);
      forall j :: 0 <= j < |args| ==> '&' !in args[j].key && '=' !in args[j].key && '&' !in ValueOf(args[j].value)
  {
    if score.Some? {
      NoAmpersandInNumber(score.value);
    }
  }

  lemma SubmitPairs(key: Option<string>, name: Option<string>, score: Option<int>)
    ensures Pairs(SubmitArgs(key, name, score))
         == (if key.Some? then [("key", key.value)] else [])
          + (if name.Some? then [("name", name.value)] else [])
          + (if score.Some? then [("score", IntText(score.value))] else [])
  {
    var a1 := KeyArgs(key);
    var a2 := if name.Some? then [Entry("name", Some(Str(name.value)))] else [];
    var a3 := if score.Some? then [Entry("score", Some(Int(score.value)))] else [];
    assert SubmitArgs(key, name, score) == (a1 + a2) + a3;
    PairsAppend(a1 + a2, a3);
    PairsAppend(a1, a2);
  }

  /**
   * A POST with no parameters and no raw body fails after connecting:
   * removing the last character of the empty form builder throws, and the
   * exception is not an `IOException`, so it is not retried.
   */
  lemma EmptyFormFails<E>(p: Protocol.Plan, tail: string, target: Protocol.Target<E>, codec: Protocol.Codec<E>,
                          script: seq<Exchange>, st: Protocol.State)
    requires p.args == [] && Protocol.WithBody(p) && p.connected
    requires st.next < |script| && script[st.next].Reply? && st.body.NoBody?
    ensures Protocol.Call(p, tail, target, codec, script, st).0 == Protocol.Raised(IndexOutOfBounds(-1))
    ensures Protocol.Call(p, tail, target, codec, script, st).1.next == st.next + 1
  {
    assert Protocol.RequestUrl(p, tail) == Ok(tail);
    var b := Protocol.Build(p, Protocol.NewConnection(p, tail, script[st.next].response), st.body);
    assert b.failure == Some(IndexOutOfBounds(-1)) by {
      assert FormBody(p.args) == Err(IndexOutOfBounds(-1));
    }
    var st2 := st.(next := st.next + 1, connection := Some(b.conn), body := b.body);
    assert Protocol.Attempt(p, tail, target, codec, script, st) == Protocol.Finished(Protocol.Raised(IndexOutOfBounds(-1)), st2) by {
      Protocol.PassOnReply(p, tail, target, codec, script, st);
    }
  }

  /** `getHighscores` on a root without a key sends an empty form and so always fails once connected. */
  lemma KeylessHighscoresFail(apiUrl: string, codec: Protocol.Codec<Highscores.Highscore>, script: seq<Exchange>, next: nat)
    requires next < |script| && script[next].Reply?
    ensures var call := Protocol.Call(PostPlan(apiUrl, None, true, KeyArgs(None)), HighscoresPath, Protocol.ArrayOf, codec, script, Start(next));
      AsList(call.0) == Protocol.Raised(IndexOutOfBounds(-1)) && call.1.next == next + 1
  {
    EmptyFormFails(PostPlan(apiUrl, None, true, KeyArgs(None)), HighscoresPath, Protocol.ArrayOf, codec, script, Start(next));
  }

  /** With a key, the highscore request is posted to `/getHighscores` under the root with the key in its body. */
  lemma HighscoresRequest(apiUrl: string, key: string, response: Response)
    ensures var p := PostPlan(apiUrl, Some(key), true, KeyArgs(Some(key)));
      var b := Protocol.Build(p, Protocol.NewConnection(p, HighscoresPath, response), Protocol.NoBody);
      && Protocol.RequestUrl(p, HighscoresPath) == Ok(HighscoresPath)
      && b.failure.None?
      && b.conn.url == apiUrl + HighscoresPath
      && b.conn.requestMethod == "POST"
      && b.conn.output == UrlEncoding.Utf8String("key" + "=" + key)
  {
    var p := PostPlan(apiUrl, Some(key), true, KeyArgs(Some(key)));
    var c := Protocol.NewConnection(p, HighscoresPath, response);
    var text := "key" + "=" + key;
    assert FormBody(p.args) == Ok(text) by {
      assert FormPieces(p.args) == [text];
    }
    var b := Protocol.Build(p, c, Protocol.NoBody);
    assert Protocol.WithBody(p);
    Protocol.FormWritten(p, c);
    assert b.conn.url == apiUrl + HighscoresPath && b.conn.requestMethod == "POST" by {
      assert HighscoresPath[0] == '/';
      Protocol.BuildKeeps(p, c, Protocol.NoBody);
    }
  }
}
