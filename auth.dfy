/** The authentication module: a request hook that challenges every request
    without a MESSAGE-INTEGRITY attribute with a nonce, checks the nonce and
    the long-term credentials of the ones that carry it, and passes
    authentic requests on with the user's key in the message context
    (section 10 of RFC 5389).  A nonce is the hex dump of an MD5 digest over
    the issue time, a server secret and the hash of the client's IP address,
    followed by the issue time in hexadecimal. */
module Auth {
  import opened Net
  import opened StunMsg
  import opened Text

  const NONCE_EXPIRY: u32 := 3600
  const NONCE_MIN_SIZE: nat := 33
  const NONCE_MAX_SIZE: nat := 48

  /** `md5` over the three 64-bit words issue time, secret and address hash. */
  type Md5 = (u64, u64, u64) -> Digest

  /** The module's static `auth` structure plus the foreign functions it
      relies on: `md5` and `sa_hash(src, SA_ADDR)`. */
  datatype AuthConf = AuthConf(expiry: u32, secret: u64, md5: Md5, hash: IpHash)

  /** `module_init`: the nonce lifetime is the configured one or 3600
      seconds; the secret is a random 64-bit value, given here. */
  function Configure(expiryConf: Option<u32>, secret: u64, md5: Md5, hash: IpHash): (c: AuthConf)
    ensures expiryConf.None? ==> c.expiry == NONCE_EXPIRY
    ensures expiryConf.Some? ==> c.expiry == expiryConf.value
    ensures c.secret == secret && c.md5 == md5 && c.hash == hash
  {
    AuthConf(if expiryConf.Some? then expiryConf.value else NONCE_EXPIRY, secret, md5, hash)
  }

  /** The digest a nonce issued at `t` to the address `src` must carry. */
  function Key(conf: AuthConf, t: u64, src: Addr): Digest
  {
    conf.md5(t, conf.secret, conf.hash(IpKeyOf(src)))
  }

  /** `mknonce`: 32 hex digits of the digest, then the issue time in hex. */
  function MkNonce(conf: AuthConf, now: Time, src: Addr): (n: string)
    ensures NONCE_MIN_SIZE <= |n| <= NONCE_MAX_SIZE
  {
    HexBytes(Key(conf, now, src)) + Hex64(now)
  }

  /** What `nonce_validate` accepts: a length between 33 and 48, a leading
      digest that matches the one computed from the trailing issue time and
      the address, and an age (`now` minus the issue time as a signed 64-bit
      value) between 0 and the configured lifetime. */
  predicate NonceValid(conf: AuthConf, nonce: string, now: Time, src: Addr)
  {
    NONCE_MIN_SIZE <= |nonce| <= NONCE_MAX_SIZE
    && var t := ParseX64(nonce[32..]);
       UnHexBytes(nonce[..32]) == Key(conf, t, src)
       && 0 <= Signed64(now - t) <= conf.expiry
  }

  /** `nonce_validate`: sixteen digit pairs give the digest, the rest is
      read as the issue time. */
  method NonceValidate(conf: AuthConf, nonce: string, now: Time, src: Addr) returns (ok: bool)
    ensures ok == NonceValid(conf, nonce, now, src)
  {
    if |nonce| < NONCE_MIN_SIZE || |nonce| > NONCE_MAX_SIZE {
      return false;
    }
    var nkey: seq<byte> := [];
    var i := 0;
    while i < 16
      invariant 0 <= i <= 16 && |nkey| == i
      invariant forall k :: 0 <= k < i ==> nkey[k] == PairVal(nonce[2 * k], nonce[2 * k + 1])
    {
      nkey := nkey + [HexVal(nonce[2 * i]) * 16 + HexVal(nonce[2 * i + 1])];
      i := i + 1;
    }
    assert nkey == UnHexBytes(nonce[..32]);
    var t := ParseX64(nonce[32..]);
    if nkey != Key(conf, t, src) {
      return false;
    }
    var age := Signed64(now - t);
    if age < 0 || age > conf.expiry {
      return false;
    }
    return true;
  }

  lemma Signed64Small(x: int)
    requires -0x8000_0000_0000_0000 <= x < 0x8000_0000_0000_0000
    ensures Signed64(x) == x
  {
  }

  /** A nonce issued at `t` to `src` is accepted from `src2` at `now`
      exactly when `src2`'s address gives the same digest and `now` lies in
      the nonce's lifetime. */
  lemma NonceRoundTrip(conf: AuthConf, t: Time, src: Addr, now: Time, src2: Addr)
    ensures NonceValid(conf, MkNonce(conf, t, src), now, src2)
            <==> Key(conf, t, src) == Key(conf, t, src2) && t <= now <= t + conf.expiry
  {
    var n := MkNonce(conf, t, src);
    var h := HexBytes(Key(conf, t, src));
    assert n[..32] == h;
    assert n[32..] == Hex64(t);
    Hex64RoundTrip(t);
    Signed64Small(now - t);
  }

  /** A challenge nonce stays valid for the client it was issued to for the
      whole lifetime, and no longer. */
  lemma ChallengeLifetime(conf: AuthConf, t: Time, src: Addr, now: Time)
    ensures NonceValid(conf, MkNonce(conf, t, src), now, src) <==> t <= now <= t + conf.expiry
  {
    NonceRoundTrip(conf, t, src, now, src);
  }

  /** The value of the NONCE attribute, when present. */
  function NonceOf(m: Msg): Option<string>
  {
    match GetAttr(m, ATTR_NONCE)
    case Some(Nonce(n)) => Some(n)
    case _ => None
  }

  /** A request that proves its sender knows the user's key: it carries
      MESSAGE-INTEGRITY, USERNAME, REALM and a valid NONCE, the user is
      known, and the integrity check passes with that user's key. */
  predicate Authentic(conf: AuthConf, lookup: string -> Result<Digest>, integrity: (Msg, Digest) -> bool,
                      now: Time, src: Addr, m: Msg)
  {
    && GetAttr(m, ATTR_MSG_INTEGRITY).Some?
    && UsernameOf(m).Some? && GetAttr(m, ATTR_REALM).Some? && NonceOf(m).Some?
    && NonceValid(conf, NonceOf(m).value, now, src)
    && lookup(UsernameOf(m).value).Ok?
    && integrity(m, lookup(UsernameOf(m).value).value)
  }

  /** USERNAME, REALM or NONCE is absent. */
  predicate MissingCredentials(m: Msg)
  {
    UsernameOf(m).None? || GetAttr(m, ATTR_REALM).None? || NonceOf(m).None?
  }

  /** The outcome of the hook: whether it claimed the request, the message
      context afterwards, and the error reply it sent. */
  datatype AuthResult = AuthResult(claimed: bool, ctx: MsgCtx, reply: Option<Reply>)

  /** The unauthenticated error replies: no integrity key, the given code,
      and the attributes listed. */
  function Refuse(proto: Proto, sock: nat, src: Addr, code: int, reason: string, attrs: seq<Attr>): Reply
  {
    Reply(proto, sock, src, None, Failure(code, reason, attrs))
  }

  function Challenge(conf: AuthConf, realm: string, now: Time, src: Addr): seq<Attr>
  {
    [Realm(realm), Nonce(MkNonce(conf, now, src)), Software]
  }

  /** `request_handler`.  `lookup` is `restund_get_ha1`, `integrity` is
      `stun_msg_chk_mi` succeeding, and `scratch` the content of the newly
      allocated key buffer that an unknown user leaves in the context. */
  function Handle(conf: AuthConf, realm: string, lookup: string -> Result<Digest>,
                  integrity: (Msg, Digest) -> bool, scratch: Digest, now: Time,
                  proto: Proto, sock: nat, src: Addr, m: Msg, ctx: MsgCtx): (o: AuthResult)
    ensures o.claimed <==> o.reply.Some?
    ensures !o.claimed <==> ctx.key.Some? || Authentic(conf, lookup, integrity, now, src, m)
    ensures ctx.key.Some? ==> o.ctx == ctx
    ensures ctx.key.None? && !o.claimed ==> o.ctx == ctx.(key := Some(lookup(UsernameOf(m).value).value))
    ensures o.ctx.ua == ctx.ua && o.ctx.fp == ctx.fp
    ensures o.reply.Some? ==> var r := o.reply.value;
              r.dest == src && r.proto == proto && r.sock == sock && r.key.None? && r.body.Failure?
              && (r.body.code == 400 || r.body.code == 401 || r.body.code == 438)
              && (r.body.code != 400 ==> r.body.attrs == Challenge(conf, realm, now, src))
    ensures ctx.key.None? && GetAttr(m, ATTR_MSG_INTEGRITY).None? ==>
              o.reply.Some? && o.reply.value.body.code == 401 && o.ctx == ctx
    ensures ctx.key.None? && GetAttr(m, ATTR_MSG_INTEGRITY).Some? && MissingCredentials(m) ==>
              o.reply.Some? && o.reply.value.body.code == 400 && o.reply.value.body.attrs == [Software]
              && o.ctx == ctx
    ensures ctx.key.None? && GetAttr(m, ATTR_MSG_INTEGRITY).Some? && !MissingCredentials(m)
            && !NonceValid(conf, NonceOf(m).value, now, src) ==>
              o.reply.Some? && o.reply.value.body.code == 438 && o.ctx == ctx
    ensures ctx.key.None? && GetAttr(m, ATTR_MSG_INTEGRITY).Some? && !MissingCredentials(m)
            && NonceValid(conf, NonceOf(m).value, now, src) && lookup(UsernameOf(m).value).Err? ==>
              o.reply.Some? && o.reply.value.body.code == 401 && o.ctx == ctx.(key := Some(scratch))
    ensures ctx.key.None? && GetAttr(m, ATTR_MSG_INTEGRITY).Some? && !MissingCredentials(m)
            && NonceValid(conf, NonceOf(m).value, now, src) && lookup(UsernameOf(m).value).Ok?
            && !integrity(m, lookup(UsernameOf(m).value).value) ==>
              o.reply.Some? && o.reply.value.body.code == 401
              && o.ctx == ctx.(key := Some(lookup(UsernameOf(m).value).value))
  {
    if ctx.key.Some? then AuthResult(false, ctx, None)
    else if GetAttr(m, ATTR_MSG_INTEGRITY).None? then
      AuthResult(true, ctx, Some(Refuse(proto, sock, src, 401, "Unauthorized", Challenge(conf, realm, now, src))))
    else if MissingCredentials(m) then
      AuthResult(true, ctx, Some(Refuse(proto, sock, src, 400, "Bad Request", [Software])))
    else if !NonceValid(conf, NonceOf(m).value, now, src) then
      AuthResult(true, ctx, Some(Refuse(proto, sock, src, 438, "Stale Nonce", Challenge(conf, realm, now, src))))
    else
      var k := lookup(UsernameOf(m).value);
      if k.Err? then
        AuthResult(true, ctx.(key := Some(scratch)),
                   Some(Refuse(proto, sock, src, 401, "Unauthorized", Challenge(conf, realm, now, src))))
      else if !integrity(m, k.value) then
        AuthResult(true, ctx.(key := Some(k.value)),
                   Some(Refuse(proto, sock, src, 401, "Unauthorized", Challenge(conf, realm, now, src))))
      else
        AuthResult(false, ctx.(key := Some(k.value)), None)
  }

  /** A client that answers a 401 or 438 challenge from the same address
      within the nonce lifetime gets past the nonce check: the NONCE of the
      reply is valid for it until the lifetime ends. */
  lemma ChallengeAnswered(conf: AuthConf, realm: string, lookup: string -> Result<Digest>,
                          integrity: (Msg, Digest) -> bool, scratch: Digest, now: Time,
                          proto: Proto, sock: nat, src: Addr, m: Msg, ctx: MsgCtx, later: Time)
    requires now <= later <= now + conf.expiry
    requires Handle(conf, realm, lookup, integrity, scratch, now, proto, sock, src, m, ctx).reply.Some?
    requires Handle(conf, realm, lookup, integrity, scratch, now, proto, sock, src, m, ctx).reply.value.body.code != 400
    ensures var attrs := Handle(conf, realm, lookup, integrity, scratch, now, proto, sock, src, m, ctx).reply.value.body.attrs;
            && Find(attrs, ATTR_NONCE).Some? && Find(attrs, ATTR_NONCE).value.Nonce?
            && NonceValid(conf, Find(attrs, ATTR_NONCE).value.nonce, later, src)
  {
    var attrs := Handle(conf, realm, lookup, integrity, scratch, now, proto, sock, src, m, ctx).reply.value.body.attrs;
    assert attrs == Challenge(conf, realm, now, src);
    FindAt(attrs, 1, ATTR_NONCE);
    ChallengeLifetime(conf, now, src, later);
  }
}
