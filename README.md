# pritunl utils: a Dafny model of the administrator authentication and the IPv4 helpers

This project models the core of `pritunl/utils.py`, the helper module of the
pritunl VPN server, and proves properties of the model. It covers two groups.

- **Administrator authentication.**
  - `check_session` accepts a request in one of two ways. A request with a
    non-empty `Auth-Token` header must carry a signature (HMAC-SHA256 over an
    `&`-joined signing string) and a fresh nonce, recorded in the cache
    `cache_db`. A request without one falls back to the cookie session, which
    may be tied to a source address and to a lifetime.
  - `check_auth` handles a password login. It runs behind a per-address
    attempt counter kept in the cache.
- **IPv4 and text helpers.**
  - `ip_to_long`, `long_to_ip`, `subnet_to_cidr` and `network_addr` work on
    dotted quads.
  - `get_cert_block` cuts the first PEM certificate out of a bundle. The
    boundaries follow section 2 of RFC 7468.
  - `filter_str` keeps the characters allowed in a name.

Layout:

- `wrappers.dfy` holds `Option`.
- `pystr.dfy` holds the Python built-ins the code relies on:
  - `int()` and `long()` parsing, and `str()` of an integer;
  - `split`, `join`, `index` and slicing;
  - `abs`.
- `ipv4.dfy` holds the address helpers.
- `text_util.dfy` holds `get_cert_block` and `filter_str`.
- `cache.dfy` holds the cache as a class.
- `auth.dfy` holds `check_session` and `check_auth`.

How the code is modelled:

- The loops of `ip_to_long` and `subnet_to_cidr`, and the state changes of
  `check_session` and `check_auth`, are methods. Each is proved against a
  specification function.
- The flask globals become explicit inputs:
  - the request (`Request`, with the administrator it attaches);
  - the session (`Session`);
  - `app_server.ssl`;
  - the clock, as the integer `now`.
- The keyed hash is the function parameter `sign(secret, message)`.
- `test_password` is the function parameter `testPassword`.
- The administrator lookups are maps.
- A Python exception is one of these:
  - `None`, for a ValueError from `int()`, `long()` or `str.index`;
  - `Raise(KeyError)` or `Raise(TypeError)`, for `session['timestamp']`;
  - `Raise(Forbidden)`, for `abort(403)`.

The model follows the code as written:

- The signature is compared with plain `!=`, not in constant time.
- Existence check and write are separate calls, not an atomic set-if-absent.
- Outcomes are `True`/`False`/403/`None` rather than distinct error kinds.
- The nonce record's TTL is set before its value is written (lines 245-246).
  The TTL is effective only if the store keeps a TTL for a key that does not
  exist yet. `CacheDb.keyedTtl` chooses the store's behaviour, and
  `VerifySigned` states what becomes of the TTL under each choice.
- The attempt counter checks the limit before recording the attempt, so a
  refused attempt is not counted.

## Model

| member | source | states |
|---|---|---|
| `IPv4.IpValue` | pritunl/utils.py:49-54 | the value `ip_to_long` computes, as split, reverse, zero-padding and a base-256 reading; `IpToLong` is proved to compute it |
| `IPv4.LongToIp` | pritunl/utils.py:56-62 | the four low octets of n, most significant first, in decimal joined by '.'; `IpValueOfLongToIp` and `SplitLongToIp` state what it means |
| `IPv4.IpToLong` | pritunl/utils.py:49-54 | returns the value of the dotted text after splitting, reversing and zero-padding, or None exactly where `long()` raises ValueError |
| `IPv4.PadParts` | pritunl/utils.py:52-53 | the `insert(1, '0')` loop yields the reversed parts with zeros after the first one, up to four parts; four or more parts are left alone |
| `IPv4.SumShifted` | pritunl/utils.py:54 | the running sum of `long(b) << 8*i` over the parts, None at the first unparsable part |
| `IPv4.ShiftedSumIsOctetValue` | pritunl/utils.py:54 | the generator's weighted sum equals the base-256 reading of the parts, least significant first |
| `IPv4.IpValueOfLongToIp` | pritunl/utils.py:49-62 | `ip_to_long(long_to_ip(n)) == n mod 2^32` for every integer n, so the identity for 0 <= n < 2^32 |
| `IPv4.SplitLongToIp` | pritunl/utils.py:56-62 | splitting `long_to_ip(n)` on '.' gives back its four decimal octets |
| `IPv4.OctetsRecompose` | pritunl/utils.py:57-61 | the four masked shifts of n recombine to n mod 2^32 |
| `IPv4.ShortFormPadding` | pritunl/utils.py:50-54 | a dotted form with fewer than four parts has the value of the form with zeros inserted before its last part |
| `IPv4.ShortFormExample` | pritunl/utils.py:50-54 | "10.1" and "10.0.0.1" denote the same address |
| `IPv4.BitBelowTrailingZeros` | pritunl/utils.py:66 | bit `count` of the mask is 0 exactly while count is below the mask's number of trailing zero bits |
| `IPv4.LoopTest` | pritunl/utils.py:66 | the loop test `~mask & pow(2, count)`, with `~m` as `-m - 1`, is non-zero exactly when bit `count` of the mask is 0 |
| `IPv4.Cidr` | pritunl/utils.py:64-68 | the prefix length `subnet_to_cidr` returns: 32 minus the trailing zero bits of the parsed mask, None when it does not parse; `SubnetToCidr` is proved to compute it |
| `IPv4.SubnetToCidr` | pritunl/utils.py:64-68 | returns 32 minus the trailing zero bits of the mask (None when the mask does not parse); needs a non-zero mask, for which alone the loop ends |
| `IPv4.MaskBitsTrailingZeros` | pritunl/utils.py:64-68 | the mask with k leading ones has exactly 32 - k trailing zeros |
| `IPv4.ContiguousMaskCidr` | pritunl/utils.py:56-68 | for 1 <= k <= 32 the dotted mask with k leading ones parses back to itself and `subnet_to_cidr` gives k |
| `IPv4.And` | pritunl/utils.py:71 | Python's `&` on unbounded two's-complement integers; `AndBit` proves it bitwise |
| `IPv4.AndBit` | pritunl/utils.py:71 | the model of `&` is bitwise on two's-complement integers: bit c of `a & b` is set exactly when it is set in both |
| `IPv4.AndBounds` | pritunl/utils.py:71 | `a & m` of non-negative integers lies between 0 and m |
| `IPv4.AndIdempotent` | pritunl/utils.py:71 | masking twice with the same mask is masking once |
| `IPv4.NetworkAddr` | pritunl/utils.py:70-72 | a result exists exactly when both the address and the mask parse |
| `IPv4.Network` | pritunl/utils.py:70-72 | the `'%s/%s'` text of the masked address and the prefix length for parsed values |
| `IPv4.NetworkAddrIdempotent` | pritunl/utils.py:70-72 | for any parsed address and a non-zero 32-bit mask the result is the dotted `ip & mask`, a slash and the prefix length, and feeding the network address back with the same mask gives the same string |
| `PyStr.NatToString` | pritunl/utils.py:57-62 | `str()` of a natural number is a numeral with that value and no leading zero |
| `PyStr.ParseInt` | pritunl/utils.py:216 | `int()`/`long()` of a str: white space around the text and after the sign, an optional sign, at least one ASCII digit; None for ValueError |
| `PyStr.ParseIntSpacedSign` | pritunl/utils.py:216 | `int(" - 42 ")` is -42 and `int("+ 7")` is 7, while `int("-")` and `int("4 2")` raise ValueError |
| `PyStr.ParseNatToString` | pritunl/utils.py:54 | `long(str(n)) == n` for every natural number |
| `PyStr.Split` | pritunl/utils.py:50 | `str.split` on one character: the pieces between separators, at least one |
| `PyStr.Join` | pritunl/utils.py:57 | `str.join`: the parts with the separator between them |
| `PyStr.JoinSplit` | pritunl/utils.py:50 | joining the pieces of a split gives the text back, and no piece holds the separator |
| `PyStr.SplitJoin` | pritunl/utils.py:50 | splitting a join of separator-free parts gives the parts back |
| `PyStr.Index` | pritunl/utils.py:104-105 | `str.index`: the first occurrence, and None (ValueError) exactly when there is none |
| `PyStr.Prefix` | pritunl/utils.py:213 | `s[:n]` is a prefix of s of length min(n, len(s)) |
| `TextUtil.GetCertBlock` | pritunl/utils.py:103-106 | a block comes back exactly when both the BEGIN and the END marker occur; a missing marker is an error |
| `TextUtil.CertBlockFramed` | pritunl/utils.py:103-106 | when the first END is not before the first BEGIN, the block starts with `-----BEGIN CERTIFICATE-----` and ends with the 25-character `-----END CERTIFICATE-----` |
| `TextUtil.Filter` | pritunl/utils.py:111 | every character of the joined comprehension is alphanumeric or name-safe, and it is no longer than its input |
| `TextUtil.FilterStr` | pritunl/utils.py:108-111 | None and "" come back unchanged; any other text gives text whose characters are all allowed |
| `TextUtil.FilterIsSubsequence` | pritunl/utils.py:111 | the output is a subsequence of the input |
| `TextUtil.FilterCounts` | pritunl/utils.py:111 | each allowed character occurs as often in the output as in the input, every other character not at all |
| `TextUtil.FilterFixpoint` | pritunl/utils.py:111 | text made of allowed characters only passes through unchanged |
| `TextUtil.FilterStrIdempotent` | pritunl/utils.py:108-111 | filtering twice equals filtering once |
| `TextUtil.FilterStrContents` | pritunl/utils.py:108-111 | for non-empty input the result is a subsequence holding exactly the allowed characters with their counts |
| `Cache.CacheDb.Exists` | pritunl/utils.py:223 | `exists(key)` is true exactly when the key holds a value |
| `Cache.CacheDb.ListLength` | pritunl/utils.py:286 | `list_length(key)` is the length of the list under key, 0 when the key is missing |
| `Cache.CacheDb.Set` | pritunl/utils.py:246 | `set` stores the value under key and leaves every other key alone |
| `Cache.CacheDb.Expire` | pritunl/utils.py:245 | `expire` records the TTL; if TTLs belong to existing keys, it does nothing for a missing key |
| `Cache.CacheDb.ListRPush` | pritunl/utils.py:292 | `list_rpush` appends one item to the list under key, creating it when missing |
| `Cache.CacheDb.Lapse` | pritunl/utils.py:294 | when a key's TTL runs out, the key and its TTL disappear |
| `Auth.SigningString` | pritunl/utils.py:230-233 | token, timestamp, nonce, method and path, and the body only when non-empty, joined by '&' |
| `Auth.SignedCheck` | pritunl/utils.py:205-248 | the signed-branch decision, checks in source order; `SignedGrantedConditions` and `SignedGrantedIf` state it both ways |
| `Auth.SessionCheck` | pritunl/utils.py:250-277 | the session-branch decision: granted, refused with or without clearing, or KeyError/TypeError from `session['timestamp']` |
| `Auth.VerifySigned` | pritunl/utils.py:205-248 | grants exactly when the signed-request decision does. On refusal the cache and the request's administrator are unchanged. On success the nonce record is written (expire, then set), its TTL is the 2.1-window TTL unless TTLs belong to existing keys, and the administrator is attached |
| `Auth.VerifySession` | pritunl/utils.py:250-277 | returns True, False or the raised error of the session decision; it clears the session only on an address mismatch or expiry, and attaches the administrator only on success |
| `Auth.CheckSession` | pritunl/utils.py:202-278 | a non-empty Auth-Token selects the signed branch, which leaves the session alone; otherwise the session branch runs and the cache is untouched |
| `Auth.Session.Clear` | pritunl/utils.py:267 | `session.clear()` empties the session |
| `Auth.SignedGrantedConditions` | pritunl/utils.py:205-248 | a granted signed request had all four headers, a parsable timestamp within AUTH_TIME_WINDOW of now, an unused key `auth_nonce-` + nonce[:32], a known token, a short enough signing string and a matching signature |
| `Auth.SignedGrantedIf` | pritunl/utils.py:205-248 | a request with all four headers, a parsable timestamp within the window, an unused nonce key, a known token, a short enough signing string and a matching signature is granted, with the record `auth_nonce-` + nonce[:32] holding the timestamp |
| `Auth.ReplayRefused` | pritunl/utils.py:213-224 | once a granted request's nonce record is in the cache, any request whose nonce has the same first 32 characters is refused, at any time |
| `Auth.IdenticalReplayRefused` | pritunl/utils.py:222-246 | the identical request, sent again after its record was written, is refused |
| `Auth.NonceTtlCoversWindow` | pritunl/utils.py:245 | two times that both accept the same timestamp lie at most `int(2.1 * window)` seconds apart, and strictly less when the window is at least 10 seconds, so the record outlives every replay that would pass the clock check |
| `Auth.NonceTtlTight` | pritunl/utils.py:245 | below 10 seconds the TTL is exactly twice the window, and a timestamp accepted at time 0 is accepted again at exactly the moment its record lapses |
| `Auth.SigningStringInjective` | pritunl/utils.py:230-233 | when no field contains '&', the signing string determines all six fields, including whether a body was sent |
| `Auth.SigningStringAmbiguous` | pritunl/utils.py:230-233 | with '&' allowed in the path, path "p&d" with no body signs the same string as path "p" with body "d" |
| `Auth.KeysDisjoint` | pritunl/utils.py:285 | nonce records and attempt counters never share a cache key |
| `Auth.SessionUnknownKept` | pritunl/utils.py:251-263 | an empty session, a missing or empty `admin_id` or an unknown administrator is refused without clearing the session |
| `Auth.SessionClearedWhen` | pritunl/utils.py:265-275 | the session is cleared only for a known administrator whose session comes from another address (without SSL) or whose timestamp is older than SESSION_TIMEOUT |
| `Auth.SessionClearedIf` | pritunl/utils.py:265-275 | a known administrator whose session comes from another address without SSL, or whose integer timestamp is older than a non-zero SESSION_TIMEOUT, is refused with the session cleared |
| `Auth.SessionGrantedMeans` | pritunl/utils.py:250-277 | a granted session names a known administrator by id, comes from the request's address unless SSL is on, and is within SESSION_TIMEOUT when that is non-zero |
| `Auth.SessionSslIgnoresAddress` | pritunl/utils.py:265-266 | with SSL on, the remote address plays no part |
| `Auth.SessionRaisesOnlyWithTimeout` | pritunl/utils.py:271-272 | an exception escapes only when SESSION_TIMEOUT is non-zero: KeyError for a missing timestamp, TypeError for a string one |
| `Auth.CheckAuth` | pritunl/utils.py:280-301 | with a remote address: abort 403 with the cache unchanged once the counter exceeds 10; otherwise the counter grows by exactly one, and the 20-second TTL is set only for a new key. Without one, the cache is untouched. The result is the login outcome |
| `Auth.Login` | pritunl/utils.py:296-301 | the administrator when the user exists and the password passes; None for an unknown user and for a wrong password alike |
| `Auth.Passes` | pritunl/utils.py:283-294 | how many of n consecutive calls get past the counter from a given length, a refused call recording nothing |
| `Auth.CheckAuthRepeated` | pritunl/utils.py:280-294 | n consecutive `check_auth` calls from one address let through exactly `Passes` of the counter's starting length |
| `Auth.CheckAuthAfterLapse` | pritunl/utils.py:283-294 | after the counter's TTL has run out, the next call gets through and starts a new counter of one entry with a 20-second TTL |
| `Auth.PassesBound` | pritunl/utils.py:283-294 | from c recorded attempts, consecutive attempts pass until the counter holds 11 entries; the rest are refused |
| `Auth.FreshCounterAllowsEleven` | pritunl/utils.py:283-294 | a fresh counter lets at most 11 attempts through before its TTL lapses; with `CheckAuthRepeated` this bounds repeated `check_auth` calls |

## Left out

- `jsonify`, `rmtree`, `get_local_networks`, `check_openssl`, and the `Response` and `request` HTTP client are left out. They are flask responses, subprocesses, `ifconfig` parsing and urllib2 calls, outside the authentication and address logic.
- `get_remote_addr` is not modelled. It reads `flask.request.remote_addr`, which is the `Request.remoteAddr` input.
- HMAC-SHA256 and base64 are not modelled. The signature is the opaque function `sign(secret, message)`.
- `Administrator.find_user`, `get_user` and `test_password` are foreign code. They are three maps and the function `testPassword`.
- Every administrator object counts as true.
- The `print` diagnostics of the session branch are left out.
- Concurrency is left out. The race between two requests with the same nonce, both passing `exists` before either `set`, is outside a sequential model.
- The implementation of `cache_db` is not part of this model.
  - The class states the contract of the five calls the code makes.
  - TTL expiry happens only through an explicit `Lapse`, not by a clock.
  - Whether a TTL belongs to an existing key is the `keyedTtl` choice.
  - `list_rpush` on a key holding a plain value replaces it rather than raising. `KeysDisjoint` shows the code never mixes the two kinds of key.
- `Auth.NonceTtl`: `int(AUTH_TIME_WINDOW * 2.1)` is computed as `window * 21 / 10` in exact arithmetic. Floating-point rounding is not modelled.
- Flask header lookup is case-insensitive. The model looks headers up by their exact names.
- Session values are strings or integers only. Other Python types (booleans, floats) that a session could hold are not modelled. An integer `admin_id` finds no administrator.
- `PyStr.ParseInt`: Python 2 `long()` also accepts a trailing `L`, and `unicode` input with non-ASCII digits and white space. The model accepts ASCII white space, an optional sign and ASCII digits only.
- `TextUtil.IsAlnum`: `str.isalnum` is modelled on ASCII letters and digits only. `NAME_SAFE_CHARS` is defined outside the file, so it is the parameter `safe`.
- `IPv4.SubnetToCidr`: a zero mask makes the source loop for ever. That input is excluded by precondition, so the hang is not modelled. The source re-parses the mask at every loop test; the model parses once, since the value is the same each time.
- `IPv4.NetworkAddrIdempotent`: proved for non-zero masks below 2^32 only. Masks that parse to a negative value or to 2^32 or more (for example five-part forms) are not covered, because the masked value may then leave the 32 bits that `long_to_ip` prints.
- `www/models/serverRoute.js` is not part of this model. It is a client-side view model with one URL concatenation.
