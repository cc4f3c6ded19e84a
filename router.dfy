/** What the terminal reader does with each chunk of bytes one read of the
    controlling terminal returns. */
module Router {
  import opened Wrappers
  import opened Text
  import opened Actions
  import opened Keymap

  /** Exactly one thing happens to a chunk: it is logged (debug mode), an
      action is queued for the event loop, or the bytes are written to the
      child's terminal. */
  datatype Routed = Logged(chunk: Bytes, shown: Action) | Enqueued(action: Action) | Forwarded(data: Bytes)

  /** The decision for one chunk.  The table is looked up with the whole
      chunk, not byte by byte.  In debug mode the chunk and the action it
      would look up (the zero action if none) are only logged.  Otherwise
      a bound chunk queues its action; an unbound chunk queues an exit
      once the child is gone, and is forwarded unchanged while it runs. */
  function Route(debug: bool, keymap: map<Bytes, Action>, childExited: bool, chunk: Bytes): (r: Routed)
    ensures r.Logged? <==> debug
    ensures r.Logged? ==> r.chunk == chunk && (r.shown == if chunk in keymap then keymap[chunk] else ZeroAction)
    ensures r.Enqueued? <==> !debug && (chunk in keymap || childExited)
    ensures r.Enqueued? ==> r.action == if chunk in keymap then keymap[chunk] else ExitAction
    ensures r.Forwarded? <==> !debug && chunk !in keymap && !childExited
    ensures r.Forwarded? ==> r.data == chunk
  {
    if debug then
      Logged(chunk, if chunk in keymap then keymap[chunk] else ZeroAction)
    else if chunk in keymap then
      Enqueued(keymap[chunk])
    else if childExited then
      Enqueued(ExitAction)
    else
      Forwarded(chunk)
  }

  /** A chunk that some bound key registers is never forwarded to the
      child, whatever its action and whether or not the child runs. */
  lemma RegisteredNeverForwarded(keymap: map<Bytes, Bytes>, m: map<Bytes, Action>, k: Bytes, chunk: Bytes,
                                 debug: bool, childExited: bool)
    requires IsCompilation(keymap, m)
    requires k in keymap && KeyStrings(k).Ok? && chunk in KeyStrings(k).value
    ensures !Route(debug, m, childExited, chunk).Forwarded?
  {
    assert Produces(keymap, keymap.Keys, k, chunk);
  }

  /** With the table compiled from `q -> exit` and the child running,
      the byte `q` queues exactly one exit and nothing is forwarded; every
      other chunk is forwarded unchanged. */
  lemma QuitKey(m: map<Bytes, Action>, chunk: Bytes)
    requires IsCompilation(map[Ascii("q") := ExitSpec], m)
    ensures Route(false, m, false, Ascii("q")) == Enqueued(ExitAction)
    ensures chunk != Ascii("q") ==> Route(false, m, false, chunk) == Forwarded(chunk)
  {
    var keymap := map[Ascii("q") := ExitSpec];
    assert KeyStrings(Ascii("q")) == Ok([Ascii("q")]);
    Lookup(keymap, m, Ascii("q"), Ascii("q"));
    if chunk != Ascii("q") {
      OnlyRegistered(keymap, m, chunk);
    }
  }
}
