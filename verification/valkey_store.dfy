/** The keys Valkey holds for the rate limiter, their expiry, and the Go store that calls the script. */
module ValkeyStore {
  import opened Wrappers
  import opened TokenBucket

  datatype Entry = Entry(hash: Hash, expiresAtMs: int)

  type Keyspace = map<string, Entry>

  /** What became of the command on its way to the server and back. */
  datatype Backend = Answered | CommandLost | ReplyLost

  datatype StoreError = InvalidPolicy | BackendFailed

  /** A key whose lifetime has passed on the server's clock is gone. */
  function Visible(keys: Keyspace, key: string, serverMs: int): Hash {
    if key in keys && serverMs <= keys[key].expiresAtMs then keys[key].hash else MISSING
  }

  /** The key space after one call: untouched unless the policy is valid and the script ran. */
  function AfterAllow(keys: Keyspace, key: string, p: Policy, nowMs: int, serverMs: int, backend: Backend): Keyspace {
    if !p.Valid() || backend == CommandLost then keys
    else
      var result := Script(p, Visible(keys, key, serverMs), nowMs);
      keys[key := Entry(result.hash, serverMs + result.ttlMs)]
  }

  function AllowResult(keys: Keyspace, key: string, p: Policy, nowMs: int, serverMs: int, backend: Backend)
    : Result<Decision, StoreError>
  {
    if !p.Valid() then Err(InvalidPolicy)
    else if backend != Answered then Err(BackendFailed)
    else Ok(Decode(Script(p, Visible(keys, key, serverMs), nowMs).reply))
  }

  /** The store's handle on Valkey. `digest` stands for the hexadecimal SHA-256 of a key. */
  class Store {
    const keyPrefix: string
    const digest: string -> string
    var keys: Keyspace

    constructor (keyPrefix: string, digest: string -> string)
      ensures this.keyPrefix == keyPrefix && this.digest == digest && keys == map[]
    {
      this.keyPrefix := keyPrefix;
      this.digest := digest;
      keys := map[];
    }

    function BucketKey(key: string): string {
      keyPrefix + ":" + digest(key)
    }

    method Allow(key: string, p: Policy, nowMs: int, serverMs: int, backend: Backend)
      returns (r: Result<Decision, StoreError>)
      modifies this
      ensures keys == AfterAllow(old(keys), BucketKey(key), p, nowMs, serverMs, backend)
      ensures r == AllowResult(old(keys), BucketKey(key), p, nowMs, serverMs, backend)
      ensures keys - {BucketKey(key)} == old(keys) - {BucketKey(key)}
    {
      if !p.Valid() {
        return Err(InvalidPolicy);
      }
      var bucketKey := BucketKey(key);
      if backend == CommandLost {
        return Err(BackendFailed);
      }
      var result := Script(p, Visible(keys, bucketKey, serverMs), nowMs);
      keys := keys[bucketKey := Entry(result.hash, serverMs + result.ttlMs)];
      if backend == ReplyLost {
        return Err(BackendFailed);
      }
      return Ok(Decode(result.reply));
    }
  }
}
