# Gateway access control, modelled in Dafny

This project models the access-control layer of the cthulhu-platform
gateway, a Go HTTP gateway that fronts a file store:

- **Bucket passwords.** A protected bucket stores its password as
  `argon2id$<salt>$<key>`. Salt and key are in unpadded standard base64
  (sections 3.2 and 4 of RFC 4648). Verifying a password parses that format
  back and treats any malformed input as a failed match.
- **Tokens.**
  - Bucket access tokens are HS256 JWTs (RFC 7519) that live for 30 minutes.
  - Login access tokens are HS256 JWTs with a configurable lifetime.
  - A refresh token is 32 random bytes in lower-case hex. The store keeps
    only the hex of its SHA-256 digest, never the token itself.
- **The SQLite store.** It holds six tables: users, refresh_tokens,
  oauth_sessions, buckets, files and bucket_admins. Each table is a sequence
  of rows in storage order. Each SQL statement is an operation on those
  sequences, and the WHERE clauses carry the rules:
  - soft-deleted users are invisible to every getter;
  - revoked refresh tokens are invisible to the lookup by hash;
  - the bulk revoke touches only active rows.
- **Request gates.**
  - The required and the optional login-token middlewares, including the
    `Bearer ` prefix extraction.
  - The bucket gate. It opens a protected bucket only with an
    `X-Bucket-Access` token issued for that bucket. When the token is bound
    to a login session, the gate also checks that binding.
- **The storage-id file manager.** It covers id generation, parsing the id
  length setting, object keys `<storage id>/<name>`, and the upload, listing
  and download loops over an S3 store. The store is a map from bucket to a
  map from key to object.

Cryptography is a parameter. Argon2id is a deterministic function from
(password, salt) to 32 bytes. SHA-256 is a function to 32 bytes. JWT
signing, parsing and signature checking form a `Jwt.Codec`, and the
round-trip lemmas assume the codec is `Jwt.Coherent`: a token it signs parses
back to what was signed and verifies under the same key. Other inputs are
parameters too:

- The clock is `now`, in whole Unix seconds.
- Random bytes, random letter picks and uuids are parameters. A random
  source that can fail is an `Option`.
- A database insert or an S3 request that may fail is a nondeterministic
  choice.

The shared machinery sits in its own modules:

- `Tables`: first match (`LIMIT 1`), `WHERE`, `UPDATE ... WHERE`,
  `ORDER BY` and a row scan.
- `Text`: Go's `strings.Split`, `strings.TrimSpace` and `strconv.Atoi`.
- `Base64` and `Hex`: the two encodings.
- `KeyOrder`: the byte-wise key order of an S3 listing.

One consequence of the model concerns the session binding. Login access
tokens are issued without a jti (`LocalAuthentication.AccessClaims`). The
bucket-login handler binds a bucket token to a session only when the login
token has a non-empty jti. So a bucket token obtained with a locally issued
login token is never bound, and the bucket gate never consults the
Authorization header for it (`BucketPasswordMiddleware.LocalLoginNeverBinds`).

## Model

| member | source | states |
|---|---|---|
| Password.HashPassword | internal/service/file/password.go:23-43 | An empty password fails with EmptyPassword and a failed random source with RandomSourceFailed. A result splits on '$' into exactly three fields: "argon2id", a field that decodes to the salt, and a field that decodes to KDF(password, salt). |
| Password.EncodedFields | internal/service/file/password.go:42-56 | Splitting `argon2id$a$b` on '$' gives back ["argon2id", a, b] when a and b hold no '$'. |
| Password.VerifyOwnHash | internal/service/file/password.go:47-74 | For a non-empty password, hashing succeeds and the password verifies against its own hash. |
| Password.VerifyOtherPassword | internal/service/file/password.go:71-74 | Another password verifies against a hash exactly when the KDF gives it the same key under the stored salt. |
| Password.VerifyRejectsEmpty | internal/service/file/password.go:48-50 | An empty password or an empty hash verifies false. |
| Password.VerifyRejectsBadFormat | internal/service/file/password.go:53-56 | A hash that does not split into three fields, or whose first field is not "argon2id", verifies false. |
| Password.VerifyRejectsBadBase64 | internal/service/file/password.go:58-68 | A salt or key field that is not valid unpadded base64 makes the hash verify false. |
| Password.VerifySound | internal/service/file/password.go:47-74 | A successful verify implies a non-empty password and a hash of the form `argon2id$a$b` with b decoding to KDF(password, decode(a)). So the stored key is exactly 32 bytes, and a key of any other length verifies false. |
| Password.HashFieldLengths | internal/service/file/password.go:13-39 | The encoded 16-byte salt has 22 characters and the encoded 32-byte key has 43. |
| Base64.DecodeOfEncode | internal/service/file/password.go:38-39 | Decoding an unpadded encoding gives back the bytes. |
| Base64.EncodeHasNoDollar | internal/service/file/password.go:38-42 | An encoding never contains '$', the field separator. |
| Base64.EncodeLength | internal/service/file/password.go:38-39 | An encoding has 4 characters per 3 bytes, plus 2 or 3 for a tail of 1 or 2 bytes. |
| Text.SplitJoin | internal/service/file/password.go:53 | Splitting the join of separator-free parts gives the parts back. |
| Text.JoinSplit | internal/service/file/password.go:53 | Joining the parts of a split with the separator gives the string back. |
| Text.SplitThree | internal/service/file/password.go:53-54 | A string that splits into three parts is the three parts joined by the separator. |
| Jwt.CheckTimes | internal/service/file/bucket_token.go:83-89 | The time check passes exactly when a present exp lies after now and a present nbf does not lie after now. |
| Jwt.ParseWithClaims | internal/service/file/bucket_token.go:76-89 | A token is accepted exactly when it parses, its algorithm is in the HMAC family, its signature checks under the key and its time window holds now. The result is the parsed claims. A non-HMAC algorithm gives UnexpectedSigningMethod. |
| Jwt.SignedTokenValidates | internal/service/file/bucket_token.go:54-91 | A token a coherent codec signed with an HMAC algorithm validates under the same key, within its window, to the signed claims. |
| BucketToken.GenerateBucketAccessToken | internal/service/file/bucket_token.go:31-61 | An empty bucket id fails first, before any signing, and an empty secret fails next. Otherwise the result is Ok exactly when signing succeeds, else SigningFailed. A coherent codec parses the token back to HS256 and the issued claims, and the token verifies under the secret. |
| BucketToken.ValidateBucketAccessToken | internal/service/file/bucket_token.go:64-92 | An empty token fails first and an empty secret next. Otherwise a token is accepted exactly when it parses with an HMAC algorithm, verifies under the secret and is inside its time window. The result is its claims. |
| BucketToken.IssuedWindow | internal/service/file/bucket_token.go:41-51 | Issued claims carry exp = now + 1800, iat = nbf = now, and no jti. |
| BucketToken.BucketTokenRoundTrip | internal/service/file/bucket_token.go:54-91 | A generated token validates under the same secret, at any time in [issued, issued + 30 min), to exactly the claims it was issued with: the same bucket id, privileges, user id and auth token id. |
| BucketToken.BucketTokenExpires | internal/service/file/bucket_token.go:47-51 | From 30 minutes after issue on, the same token is refused as expired. |
| BucketToken.BucketTokenNotValidBeforeIssue | internal/service/file/bucket_token.go:47-51 | Before its issue time the same token is refused as not yet valid. |
| BucketToken.NonHmacTokenRejected | internal/service/file/bucket_token.go:76-80 | A token whose header names a non-HMAC algorithm is refused with UnexpectedSigningMethod, whatever its signature. |
| LocalAuthentication.NewConfig | internal/microservices/authentication/local_authentication.go:23-51 | A repository that fails to open gives an error, and then an empty secret gives one. On success the secret is kept, and a lifetime setting that does not parse defaults to 15 minutes (access) or 7 days (refresh). |
| LocalAuthentication.LocalAuthConnection.constructor | internal/microservices/authentication/local_authentication.go:44-50 | The connection holds the given repository and configuration. |
| LocalAuthentication.LocalAuthConnection.GenerateTokens | internal/microservices/authentication/local_authentication.go:64-114 | A failed signature gives SignFailed, and a failed random source after signing gives RandomFailed. No failure leaves a refresh row behind. On success: the access token is the HS256 signature of the access claims; the refresh token is the hex of the random bytes (64 lower-case hex characters); and exactly one row is appended, holding the new id, the user id, hex(SHA-256(refresh token)), expiry now + refreshExpiry, creation time now, and not revoked. Users and OAuth sessions are unchanged. |
| LocalAuthentication.LocalAuthConnection.ValidateAccessToken | internal/microservices/authentication/local_authentication.go:116-135 | A token is accepted exactly when it parses with an HMAC algorithm, verifies under the configured secret and is inside its time window. The result is its claims. |
| LocalAuthentication.LocalAuthConnection.ValidateUserID | internal/microservices/authentication/local_authentication.go:137-146 | True exactly when the id is non-empty and a user with that id exists and is not soft-deleted. |
| LocalAuthentication.LocalAuthConnection.RefreshTokenFindable | internal/microservices/authentication/local_authentication.go:92-108 | After the refresh row is stored, the lookup by the hash of the token handed out finds a row. That row is the new one unless an earlier live row has the same hash. |
| LocalAuthentication.AccessTokenRoundTrip | internal/microservices/authentication/local_authentication.go:68-80 | An issued access token validates, during [issued, issued + accessExpiry), to the claims it was issued with (user id, email, provider), and those claims carry no jti. |
| LocalAuthentication.RefreshTokensDistinct | internal/microservices/authentication/local_authentication.go:86-90 | Distinct random draws give distinct refresh tokens. |
| Hex.Encode | internal/microservices/authentication/local_authentication.go:90 | The encoding of n bytes has 2n characters, all lower-case hex digits. |
| Hex.EncodeInjective | internal/microservices/authentication/local_authentication.go:90-94 | Equal encodings come from equal bytes. |
| AuthRepository.LocalAuthRepository.constructor | internal/repository/local/auth.go:38-40 | A repository over tables holding the given rows. |
| AuthRepository.LocalAuthRepository.GetUserByOAuthID | internal/repository/local/auth.go:95-125 | A result is a stored, non-deleted user with that provider and provider user id. None exactly when no such user exists. |
| AuthRepository.LocalAuthRepository.GetUserByID | internal/repository/local/auth.go:127-157 | A result is a stored, non-deleted user with that id. None exactly when no such user exists. |
| AuthRepository.LocalAuthRepository.GetUserByEmail | internal/repository/local/auth.go:159-189 | A result is a stored, non-deleted user with that email. None exactly when no such user exists. |
| AuthRepository.LocalAuthRepository.CreateUser | internal/repository/local/auth.go:191-200 | On success the row is appended with deleted_at unset, and the user is then found by id. On failure nothing changes. The other tables never change. |
| AuthRepository.LocalAuthRepository.UpdateUser | internal/repository/local/auth.go:202-207 | Exactly the non-deleted rows with the user's id get the new username, avatar_url and updated_at. Every other row and column is unchanged. |
| AuthRepository.LocalAuthRepository.SoftDeleteUser | internal/repository/local/auth.go:209-217 | Every row with the id gets deleted_at = updated_at = now, and nothing else changes. Afterwards no getter (by id, by email, by OAuth identity) returns a user with that id. |
| AuthRepository.LocalAuthRepository.CreateRefreshToken | internal/repository/local/auth.go:219-225 | On success the row is appended unrevoked. On failure nothing changes. |
| AuthRepository.LocalAuthRepository.GetRefreshTokenByHash | internal/repository/local/auth.go:227-254 | A result is a stored row with that hash and revoked_at unset; expiry is not checked. None exactly when no unrevoked row has that hash. |
| AuthRepository.LocalAuthRepository.RevokeRefreshToken | internal/repository/local/auth.go:256-262 | Every row with that id gets revoked_at = now and the reason. Other rows are unchanged. Afterwards the lookup by hash never returns a row with that id. |
| AuthRepository.LocalAuthRepository.RevokeAllUserTokens | internal/repository/local/auth.go:264-270 | Exactly the user's unrevoked rows get revoked_at and the reason. Rows revoked earlier keep their time and reason, and other users' rows are unchanged. Afterwards the lookup by hash returns none of the user's tokens. |
| AuthRepository.LocalAuthRepository.CreateOAuthSession | internal/repository/local/auth.go:274-283 | On success the row is appended, and a session stored under a state not used before is what the getter then returns. On failure nothing changes. |
| AuthRepository.LocalAuthRepository.GetOAuthSession | internal/repository/local/auth.go:285-302 | A result is a stored session with that state. None exactly when no session has that state. |
| AuthRepository.LocalAuthRepository.DeleteOAuthSession | internal/repository/local/auth.go:304-308 | The rows with that state are removed and the others kept in order, after which the getter returns None. Deleting an absent state changes nothing. |
| FileRepository.LocalFileRepository.constructor | internal/repository/local/file.go:37-39 | A repository over tables holding the given rows. |
| FileRepository.LocalFileRepository.CreateBucket | internal/repository/local/file.go:94-100 | On success the row is appended. On failure nothing changes. |
| FileRepository.LocalFileRepository.GetBucketByID | internal/repository/local/file.go:102-124 | A result is a stored bucket with that id, password hash included as stored. None exactly when no bucket has that id. |
| FileRepository.LocalFileRepository.UpdateBucket | internal/repository/local/file.go:126-131 | Only password_hash and updated_at of the rows with the bucket's id change. An absent id changes nothing. Afterwards the getter returns the old row with the two new values. |
| FileRepository.LocalFileRepository.UpdatedFirst | internal/repository/local/file.go:126-131 | After the UPDATE, the first row with the id is the first row before it, with the new password hash and updated_at. |
| FileRepository.LocalFileRepository.CreateFile | internal/repository/local/file.go:135-144 | On success one row is appended: the given file with an id no other row has, because the caller's id is not inserted. On failure nothing changes. |
| FileRepository.LocalFileRepository.GetFileByID | internal/repository/local/file.go:146-169 | A result is a stored file with that id. None exactly when no file has that id. |
| FileRepository.LocalFileRepository.GetFileByStringID | internal/repository/local/file.go:171-194 | A result is a stored file with that string id. None exactly when no file has it. |
| FileRepository.LocalFileRepository.GetFilesByBucketID | internal/repository/local/file.go:196-231 | The result holds exactly the bucket's files, each as often as it is stored, in nondecreasing created_at order. |
| FileRepository.LocalFileRepository.GetFileByBucketIDAndOriginalName | internal/repository/local/file.go:233-256 | A result is a stored file matching both the bucket id and the name. None exactly when no file matches both. |
| FileRepository.LocalFileRepository.AddBucketAdmin | internal/repository/local/file.go:260-266 | On success the row is appended and the user is then an admin of the bucket. On failure nothing changes. |
| FileRepository.LocalFileRepository.RemoveBucketAdmin | internal/repository/local/file.go:268-273 | Exactly the (user, bucket) rows are removed and the others kept in order. Afterwards the user is no admin of the bucket, and every other pair's admin status is unchanged. |
| FileRepository.LocalFileRepository.GetBucketAdminsByBucketID | internal/repository/local/file.go:275-300 | The result holds exactly the bucket's admin rows, in nondecreasing created_at order. |
| FileRepository.LocalFileRepository.GetBucketAdminsByUserID | internal/repository/local/file.go:302-327 | The result holds exactly the user's admin rows, in nondecreasing created_at order. |
| FileRepository.LocalFileRepository.IsBucketAdmin | internal/repository/local/file.go:329-342 | True exactly when a row for that user and bucket exists. |
| Tables.First | internal/repository/local/file.go:103-104 | `LIMIT 1`: a result is a stored row that matches, and None exactly when no row matches. |
| Tables.Where | internal/repository/local/file.go:268-273 | Every row of the result matches, and every matching row appears exactly as often as in the table. |
| Tables.UpdateWhere | internal/repository/local/auth.go:264-270 | The table keeps its length. Each matching row is replaced by its update and every other row is unchanged. |
| Tables.OrderBy | internal/repository/local/file.go:197-198 | `ORDER BY created_at ASC`: the result is a permutation of the rows with nondecreasing keys. |
| Tables.Scan | internal/repository/local/file.go:207-224 | Appending the rows one by one yields exactly the rows. |
| AuthMiddleware.BearerToken | internal/middleware/auth.go:18-26 | A token is extracted exactly when the header is longer than 7 characters and starts with "Bearer ". The token is then non-empty and is the rest of the header. |
| AuthMiddleware.BearerTokenOfHeader | internal/middleware/auth.go:20-21 | "Bearer " followed by a non-empty token yields that token. |
| AuthMiddleware.BarePrefixRejected | internal/middleware/auth.go:19-26 | "Bearer " alone carries no token. The required gate answers 401, and the optional gate proceeds without a user. |
| AuthMiddleware.JWTAuth | internal/middleware/auth.go:9-44 | It answers 401 for a missing header, for a non-bearer header and for a token that fails validation, each with its own message. One message covers both expired and invalid tokens. It proceeds exactly when the bearer token validates, attaching user_id, email, provider and the claims. |
| AuthMiddleware.OptionalJWTAuth | internal/middleware/auth.go:48-80 | It always proceeds, and attaches the token's user, email, provider and claims exactly when the header is a bearer header whose token validates. |
| AuthMiddleware.OptionalAgreesWithRequired | internal/middleware/auth.go:48-80 | The optional gate attaches exactly what the required gate would attach when it accepts, and nothing otherwise. |
| AuthMiddleware.IssuedAccessTokenAccepted | internal/middleware/auth.go:28-42 | With the local connection as validator, a freshly issued access token sent as a bearer header passes the required gate during its lifetime, carrying the user it was issued for. |
| BucketPasswordMiddleware.BucketPasswordAuth | internal/middleware/bucket_password.go:11-85 | 400 without a storage id. 404 when the protection lookup fails. An unprotected bucket passes whatever the headers. A protected bucket passes exactly when the X-Bucket-Access token validates, names this bucket and its session binding holds, and is answered 401 otherwise. |
| BucketPasswordMiddleware.CrossBucketRejected | internal/middleware/bucket_password.go:53-59 | A token issued for one bucket never opens another protected bucket. |
| BucketPasswordMiddleware.IssuedTokenAdmits | internal/middleware/bucket_password.go:44-83 | A token issued for the bucket and not bound to a session opens it during its 30 minutes, whatever the Authorization header says. |
| BucketPasswordMiddleware.BindingEnforcedWhenPresented | internal/middleware/bucket_password.go:61-80 | For a bound token with a bearer header present, a login token that fails validation gives 401 "linked auth token is invalid", and one whose jti differs gives 401 "auth token mismatch". |
| BucketPasswordMiddleware.BindingSkippedWithoutBearer | internal/middleware/bucket_password.go:61-83 | Without a well-formed bearer header, the decision is the one made with no auth service and no header: the binding check is skipped. |
| BucketPasswordMiddleware.AuthTokenIdOf | internal/handlers/file.go:200-206 | The bound session id is the login claims' jti, present exactly when there are login claims and their jti is non-empty. |
| BucketPasswordMiddleware.LocalLoginNeverBinds | internal/microservices/authentication/local_authentication.go:68-77 | A locally issued login token has no jti, so a bucket token obtained with it is unbound, and the gate's decision does not depend on the Authorization header. |
| LocalFilemanager.ParseLength | internal/microservices/filemanager/local_filemanager.go:218-224 | The result is the default or positive. It is the trimmed setting's integer value when that parses and is positive, and the default otherwise. |
| LocalFilemanager.ParseLengthItoa | internal/microservices/filemanager/local_filemanager.go:218-224 | A positive 64-bit value written in decimal is read back as itself. |
| Text.AtoiItoa | internal/microservices/filemanager/local_filemanager.go:219 | `strconv.Atoi` reads back the decimal form of any non-negative value up to the largest int64. |
| Text.TrimSpaceSpec | internal/microservices/filemanager/local_filemanager.go:219 | `strings.TrimSpace` removes exactly the leading and trailing white space. |
| LocalFilemanager.IdLength | internal/microservices/filemanager/local_filemanager.go:175-178 | The id length is positive: the configured length when that is positive, and 10 otherwise. |
| LocalFilemanager.GeneratedId | internal/microservices/filemanager/local_filemanager.go:173-186 | The id has the requested length, and its i-th character is the alphabet letter picked by the i-th random draw. |
| LocalFilemanager.LettersAlphanumeric | internal/microservices/filemanager/local_filemanager.go:174 | The alphabet has 62 characters, all ASCII letters or digits. |
| LocalFilemanager.GeneratedIdAlphanumeric | internal/microservices/filemanager/local_filemanager.go:173-186 | A generated id is non-empty and made of ASCII letters and digits only, so it never contains '/'. |
| LocalFilemanager.LocalFilemanagerConnection.constructor | internal/microservices/filemanager/local_filemanager.go:27-33 | The connection holds the store and the bucket, and its id length is the parsed setting with default 10. |
| LocalFilemanager.LocalFilemanagerConnection.GenerateStorageID | internal/microservices/filemanager/local_filemanager.go:173-186 | The loop builds exactly the generated id for the configured length and the random draws. |
| LocalFilemanager.LocalFilemanagerConnection.PrefixExists | internal/microservices/filemanager/local_filemanager.go:156-171 | A missing bucket gives "bucket <name> not found", and other errors give the store's error text. Otherwise the result says whether any key lies under `<storage id>/`. |
| LocalFilemanager.LocalFilemanagerConnection.Upload | internal/microservices/filemanager/local_filemanager.go:35-90 | No files gives "no files provided" and no result. An occupied folder gives "storage id <id> already exists" and changes nothing. On success the id is the given one or a generated one, the folder was empty before, every object is stored under `<id>/<name>` in order, and the result lists one FileInfo per object with their declared total size. A failed put returns an unsuccessful result with the error and keeps the earlier puts. |
| LocalFilemanager.LocalFilemanagerConnection.PutUploads | internal/microservices/filemanager/local_filemanager.go:60-83 | The put loop either stores all objects in order, reporting their infos and total size, or stops at a failed put with the store's error text, leaving exactly the objects before it stored. |
| LocalFilemanager.UploadedInfos | internal/microservices/filemanager/local_filemanager.go:76-81 | One FileInfo per upload, in order, holding the name, the key `<id>/<name>`, the declared size and the content type. |
| LocalFilemanager.ObjectKeyInjective | internal/microservices/filemanager/local_filemanager.go:64 | Within one storage id, distinct names give distinct keys. |
| LocalFilemanager.PutAllKeys | internal/microservices/filemanager/local_filemanager.go:63-75 | The uploads add exactly their keys to the store and leave every other key's object unchanged. |
| LocalFilemanager.PutAllLastWins | internal/microservices/filemanager/local_filemanager.go:63-75 | Each key ends up holding the last upload of that name. |
| LocalFilemanager.UploadedFolder | internal/microservices/filemanager/local_filemanager.go:49-83 | An upload into an unused folder leaves exactly the uploaded keys under `<id>/`. |
| LocalFilemanager.LocalFilemanagerConnection.List | internal/microservices/filemanager/local_filemanager.go:92-132 | An empty id gives "storage id is required", and a missing bucket gives the store's error. "storage id <id> not found" is returned only for an empty folder. On success the result is the files of the first page of the folder's listing and their total size. |
| LocalFilemanager.LocalFilemanagerConnection.CollectFiles | internal/microservices/filemanager/local_filemanager.go:110-125 | The loop yields exactly the listed files and the sum of their sizes. |
| LocalFilemanager.ListedFilesSpec | internal/microservices/filemanager/local_filemanager.go:113-125 | Every reported file is a listed key under the prefix, named by the rest of its key, and never has the empty name. Every listed key with a non-empty name is reported. |
| LocalFilemanager.TrimPrefix | internal/microservices/filemanager/local_filemanager.go:114 | A key with the prefix is the prefix followed by the result, and any other key is returned unchanged. |
| LocalFilemanager.LocalFilemanagerConnection.Download | internal/microservices/filemanager/local_filemanager.go:134-154 | Both names are required. A missing key gives the store's NoSuchKey. On success the result is the body and content type of the object under `<storage id>/<filename>`, with its length and the filename. |
| S3.Listing | internal/microservices/filemanager/local_filemanager.go:98-101 | At most maxKeys entries, each a stored key under the prefix with its object's size, in strictly increasing key order. |
| S3.ListingComplete | internal/microservices/filemanager/local_filemanager.go:98-101 | Every key under the prefix is listed, unless the page is full and the key comes after its last entry. |
| S3.ListingEmpty | internal/microservices/filemanager/local_filemanager.go:156-171 | A listing is empty exactly when the page size is zero or no key lies under the prefix. |
| S3.Store.PutObject | internal/microservices/filemanager/local_filemanager.go:65-74 | A missing bucket gives NoSuchBucket. On success the key holds the new object and nothing else changes. On failure nothing changes. |
| S3.Store.GetObject | internal/microservices/filemanager/local_filemanager.go:140-146 | A missing bucket or key gives NoSuchBucket or NoSuchKey. A result is the stored object. |
| S3.Store.ListObjectsV2 | internal/microservices/filemanager/local_filemanager.go:158-162 | A missing bucket gives NoSuchBucket. A result is the listing of the bucket under the prefix with that page size. |
| KeyOrder.Sorted | internal/microservices/filemanager/local_filemanager.go:98-101 | The keys of a set in strictly increasing byte order, each exactly once. |

## Left out

- Argon2id, SHA-256, HMAC signing and JWT encoding are function parameters (`Password.Kdf`, `LocalAuthentication.Sha256`, `Jwt.Codec`). Their cryptographic strength is not modelled, and the round trips assume a `Jwt.Coherent` codec.
- `crypto/rand`, `math/rand/v2` and `uuid.New` are parameters. The salt and the refresh bytes are an `Option`, so the source can fail. A letter pick is a function from draw index to letter index. Ids and transaction ids are strings the caller supplies.
- The clock is the parameter `now`, in whole Unix seconds. Sub-second precision of JWT numeric dates is not modelled.
- When several JWT time checks fail at once, the library joins the errors. `Jwt.CheckTimes` reports only the first (expiry before not-before); callers in the gateway only test for any error.
- `LocalAuthentication.NewConfig`: `time.ParseDuration` is not modelled. The settings arrive already parsed, in seconds, or None when they do not parse.
- `NewLocalAuthRepository`, `NewLocalFileRepository`, `GetDB`, `Close` and `GetRepo` are SQLite and connection plumbing. The schema is not part of this model, so uniqueness constraints are unknown: an insert may fail and change nothing, and tables may hold duplicates.
- Driver errors on reads and updates are not modelled: a query or UPDATE in the model always succeeds.
- `LocalAuthentication.LocalAuthConnection.ValidateUserID` therefore never reports a repository error.
- `FileRepository.LocalFileRepository.CreateFile`: the contract only promises an id no other row has. SQLite's exact rowid choice depends on the schema, which is not part of this model.
- The order of rows with equal created_at in the `ORDER BY created_at ASC` queries is left unspecified, as it is in SQL.
- `Password.VerifyPassword` has no contract of its own. Its behaviour is stated by the lemmas about it (`VerifyOwnHash`, `VerifyOtherPassword`, `VerifyRejectsEmpty`, `VerifyRejectsBadFormat`, `VerifyRejectsBadBase64`, `VerifySound`). The constant-time comparison is plain equality, because timing is not modelled.
- `BucketPasswordMiddleware.BucketPasswordAuth`: `IsBucketProtected` is not declared by the file service. Its answer is the parameter `protection`, None when the lookup fails. The auth service's `ValidateToken` is a function parameter (`AuthMiddleware.Validator`), None for an error.
- Header names and values are exact strings. Fiber's case-insensitive header lookup is not modelled.
- `newS3Client`, the AWS configuration and the network are replaced by `S3.Store`. A request that fails in transit is a nondeterministic `RequestFailed`, and error texts are fixed strings (`LocalFilemanager.ErrorText`).
- `LocalFilemanager.LocalFilemanagerConnection.Download` returns the object's bytes instead of a stream, and the content length is the body's length.
- `LocalFilemanager.LocalFilemanagerConnection.Upload`: the stored object holds the bytes of the upload. Its declared size, not the body's length, goes into FileInfo and the total, as in the source.
- Overflow of the int64 totals is not modelled: sizes are unbounded integers.
- The listing is only the first page of `ListObjectsV2` (at most 1000 keys). Pagination is not followed, as in the source.
- HTTP handlers, routes, the server, startup, shutdown, the message-bus connections and the diagnose service are outside the access-control layer. The one exception is the handler step that picks the session id to bind (`BucketPasswordMiddleware.AuthTokenIdOf`).
- OAuth initiation and callback, PKCE, refresh-token rotation and logout have no implementation in the gateway, so there is nothing to model.
