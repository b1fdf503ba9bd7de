/** The mutable session object: each method carries out the session function of the same name in place. */
module RatchetObject {
  import opened Bytes
  import opened SymbolicCrypto
  import opened Ratchet

  class RatchetSession {
    var role: Role
    var root: Key
    var sendChain: Key
    var recvChain: Key
    var sendCount: nat
    var recvCount: nat
    var skipped: map<nat, Key>
    var consumed: set<nat>
    var dh: Secret
    var peer: Key32

    function View(): Session
      reads this
    {
      Session(role, root, sendChain, recvChain, sendCount, recvCount, skipped, consumed, dh, peer)
    }

    constructor (root: Key, role: Role, dh: Secret, peer: Key32)
      ensures View() == NewSession(root, role, dh, peer)
    {
      var aliceToBob, bobToAlice := InitialChain(root, AliceToBob), InitialChain(root, BobToAlice);
      this.role, this.root := role, root;
      if role.Alice? {
        this.sendChain, this.recvChain := aliceToBob, bobToAlice;
      } else {
        this.sendChain, this.recvChain := bobToAlice, aliceToBob;
      }
      this.sendCount, this.recvCount := 0, 0;
      this.skipped, this.consumed := map[], {};
      this.dh, this.peer := dh, peer;
    }

    constructor FromState(state: SessionState)
      ensures View() == Import(state)
    {
      role, root := state.role, state.root;
      sendChain, recvChain := state.sendChain, state.recvChain;
      sendCount, recvCount := state.sendCount, state.recvCount;
      skipped, consumed := Collect(state.skipped), set n | n in state.consumed;
      dh, peer := state.dhPrivate, state.peer;
    }

    /** Exporting changes nothing, and importing the result rebuilds this very session. */
    method State() returns (state: SessionState)
      ensures state == Export(View()) && Import(state) == View()
    {
      ImportExport(View());
      state := Export(View());
    }

    method NextSendMessageKey() returns (key: Key)
      modifies this`sendChain, this`sendCount
      ensures key == MessageKey(old(sendChain))
      ensures View() == old(View()).(sendChain := NextChain(old(sendChain)), sendCount := old(sendCount) + 1)
    {
      key := MessageKey(sendChain);
      sendChain := NextChain(sendChain);
      sendCount := sendCount + 1;
    }

    method NextRecvMessageKey() returns (key: Key)
      modifies this`recvChain, this`recvCount
      ensures key == MessageKey(old(recvChain))
      ensures View() == AdvanceRecv(old(View()))
    {
      key := MessageKey(recvChain);
      recvChain := NextChain(recvChain);
      recvCount := recvCount + 1;
    }

    method Encrypt(text: string) returns (m: Message)
      modifies this
      ensures (View(), m) == Ratchet.Encrypt(old(View()), text)
    {
      var number := sendCount;
      var key := NextSendMessageKey();
      m := Message(number, dh.public, Sealed(key, Header(number, dh.public), Utf8Text(text)));
    }

    method ApplyDhRatchet(shared: SharedSecret)
      modifies this
      ensures View() == Ratchet.ApplyDhRatchet(old(View()), shared)
    {
      var aliceToBob, bobToAlice := RatchetChain(root, shared, AliceToBob), RatchetChain(root, shared, BobToAlice);
      root := RatchetRoot(root, shared);
      if role.Alice? {
        sendChain, recvChain := aliceToBob, bobToAlice;
      } else {
        sendChain, recvChain := bobToAlice, aliceToBob;
      }
      sendCount, recvCount := 0, 0;
      skipped, consumed := map[], {};
    }

    method RotateSendingRatchet(generated: Secret)
      modifies this
      ensures View() == Rotate(old(View()), generated)
    {
      dh := generated;
      ApplyDhRatchet(Dh(dh, peer));
    }

    method ReceiveDhRatchet(key: Key32)
      modifies this
      ensures View() == Ratchet.ReceiveDhRatchet(old(View()), key)
    {
      var shared := Dh(dh, key);
      peer := key;
      ApplyDhRatchet(shared);
    }

    /** The skip loop, with its early exit on a full store. */
    method SkipUntil(number: nat) returns (reached: bool)
      modifies this
      ensures (View(), reached) == SkipTo(old(View()), number)
    {
      while recvCount < number
        invariant SkipTo(View(), number) == SkipTo(old(View()), number)
      {
        if |skipped| >= MAX_SKIPPED_MESSAGE_KEYS {
          return false;
        }
        var key := NextRecvMessageKey();
        skipped := skipped[recvCount - 1 := key];
      }
      return true;
    }

    method MessageKeyFor(number: nat) returns (key: Result<Key>)
      modifies this
      ensures (View(), key) == TakeKey(old(View()), number)
    {
      if number in consumed {
        return Err(Replay);
      }
      if number in skipped {
        key := Ok(skipped[number]);
        skipped := skipped - {number};
        return;
      }
      if number < recvCount {
        return Err(Replay);
      }
      var reached := SkipUntil(number);
      if !reached {
        return Err(TooManySkippedMessages);
      }
      var next := NextRecvMessageKey();
      return Ok(next);
    }

    method Decrypt(m: Message) returns (r: Result<string>)
      modifies this
      ensures (View(), r) == Ratchet.Decrypt(old(View()), m)
    {
      if m.ratchetKey != peer {
        ReceiveDhRatchet(m.ratchetKey);
      }
      var key := MessageKeyFor(m.number);
      if key.Err? {
        return Err(key.error);
      }
      var plain := Open(key.value, Header(m.number, m.ratchetKey), m.ciphertext);
      if plain.None? {
        return Err(DecryptError);
      }
      consumed := consumed + {m.number};
      r := if plain.value.Utf8Text? then Ok(plain.value.text) else Err(Utf8);
    }
  }
}
