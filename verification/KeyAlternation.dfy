/** Ciphers that add a round key after every round, where only the last round does not mix. */
module KeyAlternation {

  /** What a round is made of; the key of every round is given. */
  datatype Steps<!B> = Steps(add: (B, B) -> B, layer: B -> B, unlayer: B -> B, mix: B -> B, unmix: B -> B, key: nat -> B)

  ghost predicate Invertible<B(!new)>(o: Steps<B>) {
    && (forall s: B, k: B {:trigger o.add(s, k)} :: o.add(o.add(s, k), k) == s)
    && (forall s: B :: o.unmix(o.mix(s)) == s && o.mix(o.unmix(s)) == s)
    && (forall s: B :: o.unlayer(o.layer(s)) == s && o.layer(o.unlayer(s)) == s)
  }

  /** The state after r of the rounds of the cipher. */
  function Encrypting<B>(o: Steps<B>, rounds: nat, x: B, r: nat): B
    decreases r, x
  {
    if r == 0 then o.add(x, o.key(0))
    else
      var s := o.layer(Encrypting(o, rounds, x, r - 1));
      o.add(if r == rounds then s else o.mix(s), o.key(r))
  }

  /** The state after n rounds of the inverse cipher, each one up to the addition of the key. */
  function Decrypting<B>(o: Steps<B>, rounds: nat, y: B, n: nat): B
    requires n <= rounds
    decreases n, y
  {
    if n == 0 then o.add(y, o.key(rounds))
    else
      var s := Decrypting(o, rounds, y, n - 1);
      o.add(o.unlayer(if n == 1 then s else o.unmix(s)), o.key(rounds - n))
  }

  lemma DecryptingMore<B>(o: Steps<B>, rounds: nat, y: B, n: nat)
    requires n < rounds
    ensures var s := Decrypting(o, rounds, y, n);
            Decrypting(o, rounds, y, n + 1) == o.add(o.unlayer(if n == 0 then s else o.unmix(s)), o.key(rounds - n - 1))
  {
  }

  lemma {:induction false} DecryptingUndoes<B(!new)>(o: Steps<B>, rounds: nat, x: B, n: nat)
    requires n <= rounds && Invertible(o)
    ensures Decrypting(o, rounds, Encrypting(o, rounds, x, rounds), n)
            == o.add(Encrypting(o, rounds, x, rounds - n), o.key(rounds - n))
    decreases n
  {
    if n > 0 {
      DecryptingUndoes(o, rounds, x, n - 1);
      var r := rounds - (n - 1);
      var s := o.layer(Encrypting(o, rounds, x, r - 1));
      assert o.add(Encrypting(o, rounds, x, r), o.key(r)) == if r == rounds then s else o.mix(s);
    }
  }

  lemma {:induction false} EncryptingUndoes<B(!new)>(o: Steps<B>, rounds: nat, y: B, r: nat)
    requires r <= rounds && Invertible(o)
    ensures Encrypting(o, rounds, Decrypting(o, rounds, y, rounds), r)
            == o.add(Decrypting(o, rounds, y, rounds - r), o.key(r))
    decreases r
  {
    if r > 0 {
      EncryptingUndoes(o, rounds, y, r - 1);
      var n := rounds - (r - 1);
      var s := Decrypting(o, rounds, y, n - 1);
      var t := if n == 1 then s else o.unmix(s);
      assert o.add(Decrypting(o, rounds, y, n), o.key(r - 1)) == o.unlayer(t);
    }
  }

  /** The cipher and the inverse cipher undo each other. */
  lemma {:induction false} Inverts<B(!new)>(o: Steps<B>, rounds: nat, x: B)
    requires Invertible(o)
    ensures Decrypting(o, rounds, Encrypting(o, rounds, x, rounds), rounds) == x
    ensures Encrypting(o, rounds, Decrypting(o, rounds, x, rounds), rounds) == x
  {
    DecryptingUndoes(o, rounds, x, rounds);
    EncryptingUndoes(o, rounds, x, rounds);
  }
}
