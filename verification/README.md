# Verification of vcert's policy, certificate and output logic

A model in Dafny of the parts of vcert that compute something: the compiler from policy specifications to
issuing templates with its two readers and the endpoint's checks; encrypted PEM blocks (RFC 1423); the
subject alternative name extension in DER (X.690, sections 8.1.3 and 10.1; RFC 5280, section 4.2.1.6); the
result writer and the PEM reader; setting a policy on the cloud service; and the word wrapper, the polling
loop and the search for the newest certificate. `dafny verify dfyconfig.toml` checks everything.

Functions of the model state what a piece of the source computes; the loops and the methods that change
fields are methods proved against those functions; the theorems are lemmas about the functions. A nil slice
or pointer is `None`, an error `Err`, and a run-time panic of the Go code is the outcome `Panic`, never a
precondition.

| file | models |
|---|---|
| `policy_model`, `policy_compiler`, `key_kinds` | the specification, its validation and compilation |
| `policy_reader`, `policy_round_trip` | reading a template back; compile, read, compile |
| `policy_meaning` | what is accepted, compiled and read, field by field |
| `regex`, `policy_names`, `policy_values` | the fragment of regular expressions in use, and what the compiled ones mean |
| `endpoint`, `key_check`, `policy_end_to_end`, `policy_alt_names` | the endpoint's checks and defaults, and the whole way to them |
| `cloud_service`, `set_policy`, `set_policy_laws` | setting a policy, for one call and over runs of calls |
| `rfc1423`, `pem_text`, `pem_body`, `pem_laws`, `base64`, `key_text` | encrypted blocks, PEM text, encrypting the key of a text |
| `pem_collection`, `result_writer` | reading and writing results |
| `bytes`, `base128`, `der`, `san`, `extensions`, `ext_key_usages` | names and usages in a signing request |
| `word_wrap`, `polling`, `newest`, `sorting` | the smaller loops |
| `text`, `decimal`, `seqs`, `wrappers` | strings, numbers, sequences, results |

## Where the code departs from what it is for

Each of these is a theorem, with the exact condition under which the code does what one expects.

- A default value that validation accepts can be refused by its own policy, since list values are used as
  regular expressions (`AcceptedDefaultCanFail`); when it is not (`DefaultsPassPolicyIff`).
- Where no domain is listed, forbidding DNS names is ignored (`ForbiddenDnsNamesIff`), and a URI passes only
  if it ends in a dot (`CompiledUriMeaning`). Forbidding URIs is ignored everywhere (`UriAllowedIsIgnored`).
- A default elliptic key is dropped on reading the zone (`ZoneKeyIff`, `DefaultEcKeyIsDropped`).
- The documentation of the allowed keys says that at least one entry must list the key; the code asks the
  first entry of the type only (`RsaAsDocumentedIff`, `EcdsaAsDocumentedIff`, `Ed25519AsDocumentedIff`).
  An unknown curve name is checked as P256 (`UnknownCurveIsP256`).
- Setting a policy reports success although the application was not updated, so that neither alias nor owners
  are set, since the status of that request is not looked at (`SuccessMeans`, `SucceedsIff`); leaves the template
  changed when it then fails (`FailureChangesTemplatesIff`); moves an alias when its lookup fails
  (`AliasMovesIff`); and panics on a failed application lookup, an application without aliases, an empty list
  of users, of default units or of created templates, details of the caller without a user, and refused
  default units without an organization (`PanicsIff`).
- The private key read from PEM text carries everything after it (`KeyAloneIff`).
- Encrypting the key of a text returns the empty text, and no error, when it fails, and panics on a text
  without an RSA or EC key (`EncryptedTextIff`).
- The result writer loses parts, whatever they were meant for: the signing request unless the root comes last,
  the chain when it is ignored, even from its own file, or has no place, the pickup id outside enroll and
  renew, and every part that shares its file with one written later (`IsLostIff`, `FileHoldsLast`).
- Reading a template back loses some settings (`CompileReadCompile` and the lemmas for each part).

## Model

| member | source | states |
|---|---|---|
| `PolicyEndToEnd.DefaultsPassPolicy` | pkg/policy/policyUtils.go:754-822 | validate, compile, read as policy and as defaults, fill a request with an empty subject: every component with a usable default passes the policy check |
| `PolicyEndToEnd.DefaultsPassPolicyIff` | pkg/endpoint/endpoint.go:471-506 | the same with its exact condition, for lists of plain text, dots, `.*` and parenthesised words: an accepted default passes if and only if its list keeps it |
| `PolicyEndToEnd.AllowedDefaultIff` | pkg/policy/policyUtils.go:736-752 | a list keeps an accepted default exactly if it is open and the default has no line break, or the default has no group, or a listed value stands for it all the same |
| `PolicyEndToEnd.CompiledSubjectMeaning` | pkg/policy/policyUtils.go:1030-1081 | after compiling and anchoring, a subject value passes exactly if some listed value stands for it; any without a line break if nothing is listed, none if just the empty text is |
| `PolicyValues.ValueMeaning` | pkg/venafi/cloud/certificatePolicies.go:87-95 | an anchored value, used as an expression, accepts exactly the texts it stands for |
| `PolicyValues.PlainValue` | pkg/endpoint/endpoint.go:461-469 | a value of literals and dots stands for what is the same up to dots |
| `PolicyValues.StandsForItselfIff` | pkg/endpoint/endpoint.go:461-469 | a value without `.*` stands for itself exactly if it has no parenthesised group |
| `PolicyEndToEnd.AcceptedDefaultCanFail` | pkg/policy/policyUtils.go:781-822 | every default organization with a parenthesised group and no `.*` is accepted by validation, compiled, and then refused by its own policy |
| `PolicyEndToEnd.ParenthesesNeverMatchThemselves` | pkg/venafi/cloud/certificatePolicies.go:87-95 | such a value, anchored, matches just the text without the parentheses |
| `PolicyEndToEnd.DefaultMatchesRules` | pkg/policy/policyUtils.go:1030-1081 | the rule compiled from a list accepts every nonempty default that validation allows and that stands for itself |
| `PolicyEndToEnd.CompiledDomainsMeaning` | pkg/policy/policyUtils.go:962-1013 | after compiling, storing and anchoring, a common name passes exactly if it is a host under a listed domain, or, where none is listed, has no line break; a DNS name likewise, but none where domains are listed and DNS names forbidden |
| `PolicyEndToEnd.ForbiddenDnsNamesIff` | pkg/policy/policyUtils.go:962-991 | forbidding DNS names refuses them if and only if a domain is listed |
| `PolicyAltNames.CompiledEmailMeaning` | pkg/policy/policyUtils.go:975-998 | an email name passes only if email is allowed, and then exactly under a listed domain, or, where none is listed, if it has an `@` and no line break |
| `PolicyAltNames.CompiledUriMeaning` | pkg/policy/policyUtils.go:984-1010 | a URI passes exactly with a listed protocol under a listed domain; where no domain is listed, exactly with a listed protocol and a dot at its very end |
| `PolicyAltNames.UriAllowedIsIgnored` | pkg/policy/policyUtils.go:984-1010 | whether URIs are allowed changes nothing of the compiled rules |
| `PolicyEndToEnd.CompiledKeysMeaning` | pkg/endpoint/endpoint.go:401-441 | after compiling and reading, a key passes exactly if its type is allowed and its size or curve listed; with only unknown types named, every key passes |
| `PolicyEndToEnd.ListedSizesPass` | pkg/policy/policyUtils.go:1083-1114 | in the terms of the specification: an RSA size passes exactly if it is listed, or, where none is, if it is the default size, or else 2048 |
| `PolicyEndToEnd.ListedCurvesPass` | pkg/policy/policyUtils.go:1116-1140 | and a curve exactly if some listed name means it, or, where none is listed, if the default name does, or else if it is P256 |
| `PolicyEndToEnd.DefaultRsaKeyPasses` | pkg/venafi/cloud/certificatePolicies.go:156-175 | a default RSA key passes its own policy exactly if its size is set and not zero, or left out while 2048 is allowed |
| `PolicyEndToEnd.ZoneKeyIff` | pkg/venafi/cloud/certificatePolicies.go:164-174 | the zone holds a key configuration exactly for a default RSA key whose size is set and not zero, or left out |
| `PolicyEndToEnd.DefaultEcKeyIsDropped` | pkg/venafi/cloud/certificatePolicies.go:164-174 | so a default elliptic key never reaches a request: it leaves as RSA 2048 |
| `PolicyNames.HostRegexMeaning` | pkg/policy/policyUtils.go:1227-1243 | one compiled domain expression, anchored, accepts exactly a letter (or `*`), host characters, a dot and the domain |
| `PolicyNames.DomainRulesMeaning` | pkg/policy/policyUtils.go:1227-1243 | the compiled list accepts exactly the hosts under some listed domain |
| `PolicyNames.WildcardsOnlyAdd` | pkg/policy/policyUtils.go:1232-1237 | every name the rules without wildcards accept is accepted with them |
| `PolicyNames.EmailRegexMeaning` | pkg/policy/policyUtils.go:1271-1286 | the compiled email expression accepts exactly what ends in `@` and the domain, with no line break before |
| `PolicyNames.UriRegexMeaning` | pkg/policy/policyUtils.go:1288-1308 | the compiled URI expression accepts exactly a listed protocol, `://`, anything on one line, a dot and the domain |
| `PolicyNames.DomainsRoundTrip` | pkg/policy/policyUtils.go:1310-1327 | removing the expressions gives every list of texts back, for both wildcard settings, and the wildcard setting of every nonempty list |
| `PolicyNames.ProtocolsRoundTrip` | pkg/venafi/cloud/cloud.go:710-729 | reading the compiled URI expressions gives the distinct protocols as the group carries them, which are the protocols themselves if none holds the separator or the closing mark |
| `PolicyNames.RejoinedIff` | pkg/venafi/cloud/cloud.go:710-729 | joining what was read gives the text it was read from exactly if that text has no closing mark and no part twice |
| `PolicyNames.DistinctOrder` | pkg/venafi/cloud/cloud.go:716-726 | each at its first mention |
| `PolicyNames.AddNewNoRepeats` | pkg/venafi/cloud/cloud.go:716-726 | and each once |
| `Regex.SearchAnchored` | pkg/endpoint/endpoint.go:461-469 | an unanchored search with an expression in `^` and `$` matches the whole text from its start |
| `Regex.StarMeaning` | pkg/endpoint/endpoint.go:461-469 | a starred class followed by the rest matches exactly if some run of class characters leads to a match of the rest |
| `Regex.AnchoredRawMeaning` | pkg/venafi/cloud/certificatePolicies.go:87-95 | a text of literals and dots, anchored, matches exactly what is the same up to dots |
| `Regex.AnchoredRawMatchesItself` | pkg/venafi/cloud/certificatePolicies.go:87-95 | in particular itself |
| `Regex.AnchoredDotStar` | pkg/venafi/cloud/certificatePolicies.go:87-95 | the anchored `.*` accepts exactly the texts without a line break |
| `Text.UnescapeEscape` | pkg/policy/policyUtils.go:1310-1327 | replacing dots by escaped dots and back is the identity, whatever backslashes the text holds |
| `PolicyCompiler.ExistStringInArray` | pkg/policy/policyUtils.go:160-173 | true exactly if every value is among the supported ones |
| `PolicyCompiler.InvalidRsaKeySize` | pkg/policy/policyUtils.go:862-877 | none exactly when every size is supported, else the first listed size that is not |
| `PolicyCompiler.ConvertToRegex` | pkg/policy/policyUtils.go:1227-1243 | the loop yields one host expression per domain, nil for none |
| `PolicyCompiler.ConvertToRfc822Regex` | pkg/policy/policyUtils.go:1271-1286 | the loop yields one email expression per domain, nil for none |
| `PolicyCompiler.ConvertToUriRegex` | pkg/policy/policyUtils.go:1288-1308 | the loop yields one URI expression per domain, nil for none |
| `PolicyCompiler.BuildKeyTypes` | pkg/policy/policyUtils.go:1083-1140 | the two entries assembled step by step are the key rules the theorems speak of |
| `PolicyCompiler.BuildNameRules` | pkg/policy/policyUtils.go:962-1028 | likewise for names, in the order of assignments and overwritings of the source |
| `PolicyCompiler.BuildRules` | pkg/policy/policyUtils.go:962-1222 | likewise for all rules |
| `PolicyCompiler.BuildRecommended` | pkg/policy/policyUtils.go:1149-1214 | likewise for the recommended settings; an empty list of default units panics |
| `PolicyCompiler.BuildCloudCitRequest` | pkg/policy/policyUtils.go:907-1225 | the whole compiler computes `Compile`, its errors and its panic included |
| `PolicyMeaning.ValidateIff` | pkg/policy/policyUtils.go:754-860 | what validation accepts, in full, in the terms of the specification |
| `PolicyMeaning.ErrorsAreReal` | pkg/policy/policyUtils.go:754-860 | every error names something that is wrong |
| `PolicyMeaning.AuthorityParts` | pkg/policy/policyUtils.go:1345-1361 | the authority is read as type, account and product, whatever follows a fourth backslash, and refused with fewer |
| `PolicyMeaning.CompiledRequest` | pkg/policy/policyUtils.go:907-960 | type, product, period and the settings of two authorities; key reuse and who may generate keys, field by field |
| `PolicyMeaning.CompiledDefaults` | pkg/policy/policyUtils.go:1149-1214 | the recommended settings are the defaults, the first unit standing for all, with 2048 or P256 where a key of those types has none |
| `PolicyMeaning.CompiledSubject` | pkg/policy/policyUtils.go:1030-1081 | a subject list is passed on as it is, but for none and for just the empty text |
| `PolicyMeaning.CompiledAddresses` | pkg/policy/policyUtils.go:1013-1028 | addresses have expressions only if allowed: those of the constraints, or else the two plain ones |
| `PolicyMeaning.AddressKindsConcat` | pkg/policy/policyUtils.go:1245-1269 | those of the constraints one after the other |
| `PolicyReader.RemoveRegex` | pkg/policy/policyUtils.go:1310-1327 | each expression becomes its domain, an empty list nil |
| `PolicyReader.CollectProtocols` | pkg/venafi/cloud/cloud.go:710-729 | the nested loops, with sort and binary search for membership, collect the new protocols in order and panic on an expression without `)://` |
| `PolicyReader.CheckWildCard` | pkg/venafi/cloud/cloud.go:966-976 | true exactly for a nonempty list whose every expression starts with the wildcard class |
| `PolicyReader.BuildKeyPair` | pkg/venafi/cloud/cloud.go:785-834 | key types, sizes and curves are gathered over all entries |
| `PolicyReader.BuildPolicySpecification` | pkg/venafi/cloud/cloud.go:680-900 | the whole reader computes `ReadSpec` |
| `PolicyMeaning.ReadFields` | pkg/venafi/cloud/cloud.go:680-900 | the whole of what is read, from any template, field by field |
| `PolicyMeaning.ReadNames` | pkg/venafi/cloud/cloud.go:700-734 | a kind of name is allowed exactly if the template has expressions for it |
| `PolicyMeaning.ReadKeys` | pkg/venafi/cloud/cloud.go:785-834 | the key settings, and who generates keys, left open if both may |
| `PolicyMeaning.ProtocolsBetween` | pkg/venafi/cloud/cloud.go:710-729 | the protocols stand between bars, after the first character and before the first closing mark |
| `PolicyMeaning.OpenPrefixRemoved` | pkg/policy/policyUtils.go:1310-1327 | a domain after the open prefix is read without it |
| `PolicyReader.AddStartEndToArray` | pkg/venafi/cloud/certificatePolicies.go:96-107 | every expression is anchored once, nil stays nil |
| `PolicyReader.BuildKeyConfigs` | pkg/venafi/cloud/certificatePolicies.go:136-152 | one configuration per key type, or a panic for an unknown type |
| `PolicyReader.BuildPolicy` | pkg/venafi/cloud/certificatePolicies.go:86-154 | the whole of toPolicy computes `ToPolicy` |
| `PolicyMeaning.EndpointFields` | pkg/venafi/cloud/certificatePolicies.go:86-154 | reuse, wildcards and one key configuration per type, with its lengths and curves; a panic exactly on an unknown type |
| `PolicyMeaning.AnchoredIs` | pkg/venafi/cloud/certificatePolicies.go:87-95 | an expression is anchored at either end unless it is already, and nothing else changes |
| `PolicyRoundTrip.CompileReadCompile` | pkg/venafi/cloud/cloud.go:680-900 | compile, read, compile gives the same rules exactly for the recoverable specifications, for every specification that compiles |
| `PolicyRoundTrip.CompiledTemplateIsReadable` | pkg/venafi/cloud/cloud.go:710-729 | no template the compiler can produce makes the reader panic |
| `PolicyRoundTrip.SubjectRoundTrip` | pkg/venafi/cloud/cloud.go:750-783 | every subject rule survives |
| `PolicyRoundTrip.SubjectListRoundTrip` | pkg/venafi/cloud/cloud.go:753-757 | a nonempty subject list comes back as set |
| `PolicyRoundTrip.KeysRoundTrip` | pkg/venafi/cloud/cloud.go:785-818 | key rules survive exactly if a known key type, or none, is named |
| `PolicyRoundTrip.FlagsRoundTrip` | pkg/policy/policyUtils.go:1216-1222 | the service-generated setting comes back in each of its three states; key reuse with any key type |
| `PolicyRoundTrip.CnRoundTrip` | pkg/venafi/cloud/cloud.go:689-698 | common-name rules survive exactly if domains are listed, and then domains and wildcard setting come back |
| `PolicyRoundTrip.SanRoundTrip` | pkg/venafi/cloud/cloud.go:700-703 | DNS rules survive exactly if domains are listed and DNS names not forbidden |
| `PolicyRoundTrip.EmailRoundTrip` | pkg/venafi/cloud/cloud.go:705-708 | email rules are lost exactly if email is allowed without a domain |
| `PolicyRoundTrip.IpRoundTrip` | pkg/venafi/cloud/cloud.go:731-734 | address rules survive constraints exactly if these compile to the two plain expressions |
| `PolicyRoundTrip.UriRoundTrip` | pkg/venafi/cloud/cloud.go:710-729 | URI rules survive exactly if no protocol is listed, or the joined protocols hold no closing mark and no part between separators twice |
| `PolicyRoundTrip.PlainReadableIff` | pkg/venafi/cloud/cloud.go:710-729 | which for protocols without separator and mark means that none is repeated |
| `PolicyRoundTrip.DefaultsRoundTrip` | pkg/venafi/cloud/cloud.go:838-897 | subject defaults survive; the default key unless it is RSA with a size of zero or below |
| `PolicyRoundTrip.ValidityRoundTrip` | pkg/venafi/cloud/cloud.go:737-744 | the number of days comes back, 365 if none was set, as the nearest number of 32 bits; the period compiled again is the same exactly for numbers of 32 bits |
| `Endpoint.CheckString` | pkg/endpoint/endpoint.go:461-469 | true exactly if some expression matches |
| `Endpoint.CheckComponent` | pkg/endpoint/endpoint.go:471-484 | true exactly if every value matches, a missing one being checked as the empty text unless optional |
| `Endpoint.ComponentCases` | pkg/endpoint/endpoint.go:471-484 | the three cases of the check: optional and missing, missing, and given |
| `Endpoint.ZoneConfiguration.UpdateCertificateRequest` | pkg/endpoint/endpoint.go:487-534 | the whole new request is the old one with unset fields filled from the zone |
| `Endpoint.SubjectKeptOrFilled` | pkg/endpoint/endpoint.go:487-512 | for every zone and request: a subject field that is set stays, a missing one becomes the zone's |
| `Endpoint.KeyKeptOrFilled` | pkg/endpoint/endpoint.go:508-535 | a key type, length and curve that are set stay, missing ones are filled as stated; the signature algorithm is the zone's, or SHA-256 with RSA |
| `Endpoint.ZoneConfiguration.ReadTemplate` | pkg/venafi/cloud/certificatePolicies.go:156-175 | the zone takes the template's defaults; no key configuration for an unknown type or a length of zero |
| `Endpoint.ZoneTakes` | pkg/venafi/cloud/certificatePolicies.go:156-175 | what the zone takes from a template, field by field |
| `KeyCheck.FindKey` | pkg/endpoint/endpoint.go:401-441 | the loop decides as the recursive check does |
| `KeyCheck.AcceptedIff` | pkg/endpoint/endpoint.go:401-441 | for every list: accepted exactly if an entry lists the key and none before it settles its type |
| `KeyCheck.AcceptedIsListed` | pkg/endpoint/endpoint.go:200-202 | whatever is accepted is listed by some entry |
| `KeyCheck.FirstEntryDecides` | pkg/endpoint/endpoint.go:403-416 | the first entry of a type settles RSA and ECDSA keys |
| `KeyCheck.RsaAsDocumentedIff` | pkg/endpoint/endpoint.go:200-202 | "at least one entry lists it" holds for all RSA keys exactly if the first RSA entry covers the later ones |
| `KeyCheck.EcdsaAsDocumentedIff` | pkg/endpoint/endpoint.go:200-202 | the same for ECDSA keys of every curve name |
| `KeyCheck.OrderDoesNotMatter` | pkg/endpoint/endpoint.go:401-441 | with one entry per type, RSA and ECDSA keys are judged as documented in every order of the list |
| `KeyCheck.Ed25519AsDocumentedIff` | pkg/endpoint/endpoint.go:417-438 | and for ED25519 keys: exactly if the first ECDSA entry offers the curve, or no later one does and an entry of the type itself comes before it or is missing |
| `KeyCheck.Ed25519OrderIff` | pkg/endpoint/endpoint.go:401-441 | with one entry per type, the order of the list matters for ED25519 keys exactly if it has an entry of their own and an ECDSA entry without the curve |
| `KeyCheck.Ed25519DependsOnOrder` | pkg/endpoint/endpoint.go:417-438 | such a pair of entries accepts the key in one order and refuses it in the other |
| `KeyCheck.UnknownCurveIsP256` | pkg/certificate/ellipticCurve.go:49-64 | an unknown curve name is checked as P256 |
| `KeyKinds.CurveOfIff` | pkg/certificate/ellipticCurve.go:49-81 | curves are named with or without a hyphen, in any case, and any other name means P256 |
| `KeyKinds.KindOfIff` | pkg/certificate/keyType.go:57-76 | three names mean elliptic keys, which the curve tells apart, and one RSA, in any case |
| `Sorting.Contains` | pkg/venafi/cloud/cloud.go:902-908 | membership, found by sorting a copy and searching it |
| `Sorting.BinarySearch` | pkg/venafi/cloud/cloud.go:910-924 | on a sorted list, a position of the value, or -1 exactly if it is missing |
| `Sorting.SortStrings` | pkg/certificate/certificate.go:493-496 | the array becomes the sorted form of its old contents |
| `Sorting.SortSorts` | pkg/venafi/cloud/cloud.go:902-908 | that form is sorted and has the same values equally often |
| `Sorting.LeqIff` | pkg/venafi/cloud/cloud.go:716-726 | the order is that of a dictionary, by the codes of the characters |
| `Sorting.SortEqualIff` | pkg/certificate/certificate.go:500-506 | two lists sort to the same exactly if they hold the same values equally often |
| `Rfc1423.DecryptOfEncrypt` | pkg/util/pemUtil.go:97-202 | for every cipher, password, data and random bytes, decrypting what was encrypted gives the data; encrypting succeeds exactly for a known cipher and enough random bytes |
| `Rfc1423.DecryptIff` | pkg/util/pemUtil.go:97-160 | a block decrypts to some data exactly if its header parses and its bytes are that data padded and encrypted under the password and the header's vector |
| `Rfc1423.IncorrectPasswordIff` | pkg/util/pemUtil.go:129-159 | the incorrect-password error means: a good header, whole blocks and at least one, and not the encryption of any padded data under this password |
| `Rfc1423.DekInfoRoundTrip` | pkg/util/pemUtil.go:98-119 | the printed header parses to the cipher and the vector |
| `Rfc1423.ParseDekInfoIff` | pkg/util/pemUtil.go:98-119 | a header is accepted exactly if it is the name of one of the five ciphers, a comma, and the digits of a vector of its block size |
| `Rfc1423.DecodeEncodeHex` | pkg/util/pemUtil.go:113-116 | decoding printed hexadecimal digits gives the bytes |
| `Rfc1423.UnpadIff` | pkg/util/pemUtil.go:143-159 | the padding check accepts exactly padded data, and returns that data |
| `Rfc1423.CheckPadding` | pkg/util/pemUtil.go:143-159 | the loop over the last bytes decides so |
| `Rfc1423.DecryptEncrypt` | pkg/util/pemUtil.go:181-192 | CBC decryption undoes encryption |
| `Rfc1423.EncryptDecrypt` | pkg/util/pemUtil.go:133-135 | and encryption decryption |
| `Rfc1423.CryptBlocksInPlace` | pkg/util/pemUtil.go:192 | in place, the array becomes the encryption of its old contents |
| `Rfc1423.DecryptBlocks` | pkg/util/pemUtil.go:133-135 | the array receives the decryption of the bytes |
| `Rfc1423.DeriveKey` | pkg/util/pemUtil.go:207-222 | the loop terminates with exactly the first bytes of D1, D2, ... |
| `Rfc1423.ShorterKeyIsPrefix` | pkg/util/pemUtil.go:207-222 | for one password and salt a shorter key is a prefix of a longer one |
| `Rfc1423.X509EncryptPEMBlock` | pkg/util/pemUtil.go:165-202 | the source's steps compute `Encrypted` |
| `Rfc1423.EncryptedMeans` | pkg/util/pemUtil.go:168-201 | for each of the five ciphers, spelled out: headers that name cipher and vector, and the padded data chained under the key stretched from password and salt; an error without a vector or with another number |
| `Rfc1423.CbcIsChained` | pkg/util/pemUtil.go:181-192 | every block written is the cipher applied to the block of the data with exactly the bits of the block before, or of the vector, flipped |
| `Rfc1423.XorFlips` | pkg/util/pemUtil.go:134-192 | a bit of the combination differs from that of the data exactly if it is set in the other |
| `Rfc1423.X509DecryptPEMBlock` | pkg/util/pemUtil.go:97-160 | the source's steps compute `Decrypted`, error by error |
| `Base128.ReadNumberIff` | pkg/certificate/x509SubjectAltName.go:133-142 | a tag number of several octets is read exactly in its shortest form and within 32 bits |
| `Der.ReadIff` | pkg/certificate/x509SubjectAltName.go:133-142 | what is read from the front of some bytes is the value whose encoding stands there, long tags and long-form lengths included |
| `Der.ReadAllIff` | pkg/certificate/x509SubjectAltName.go:144-159 | what the read loop accepts to the last byte are exactly the concatenations of encodings |
| `Der.ReadLengthIff` | pkg/certificate/x509SubjectAltName.go:131-142 | exactly the lengths below the limit, in shortest form, are read |
| `Der.TooLongIsRefused` | pkg/certificate/x509SubjectAltName.go:131-142 | contents at or beyond the limit are never read |
| `San.MarshalSANs` | pkg/certificate/x509SubjectAltName.go:89-124 | the five loops write the names in order; an error exactly if some user principal name cannot be read back |
| `San.MarshalledNames` | pkg/certificate/x509SubjectAltName.go:89-125 | what is written is one sequence of exactly these values: DNS names under tag 2, email under 1, addresses under 7 in their short form, URIs under 6, and a constructed tag 0 for each user principal name |
| `San.MarshalledIff` | pkg/certificate/x509SubjectAltName.go:106-117 | it fails exactly if some user principal name is no valid UTF-8, or too long |
| `San.MarshalledReadsBack` | pkg/certificate/x509SubjectAltName.go:89-124 | the written bytes are one sequence whose contents read back as the names, in order, to the last byte |
| `San.UpnsRoundTrip` | pkg/certificate/x509SubjectAltName.go:127-163 | reading the written extension gives exactly the nonempty user principal names in order, whatever surrounds them; an error exactly beyond the length limit |
| `San.ReaderAcceptsIff` | pkg/certificate/x509SubjectAltName.go:127-179 | an extension value is accepted with a list of names exactly if it encodes one sequence of general names that yield it |
| `San.ParseUpnIff` | pkg/certificate/x509SubjectAltName.go:165-178 | what one general name yields, in the terms of its encoding |
| `San.ReadUpnsIff` | pkg/certificate/x509SubjectAltName.go:144-159 | the loop over the contents yields a list exactly if the contents split into values that yield it |
| `San.CollectUpns` | pkg/certificate/x509SubjectAltName.go:144-159 | the loop that overwrites `rest` terminates and computes that |
| `San.GetUserPrincipalNameSANs` | pkg/certificate/x509SubjectAltName.go:127-163 | the loop over the extensions collects all of them, or returns the first error |
| `Extensions.SanThenEku` | pkg/certificate/x509SubjectAltName.go:54-85 | from any starting list: one subject alternative name extension, critical exactly if the subject is empty; one key-usage extension if some usage is known; all others once, in order |
| `Extensions.AtMostOneEkuIff` | pkg/certificate/extKeyUsage.go:266-301 | two key-usage extensions remain only if they were there and no usage asked for is known |
| `Extensions.GeneratedSanCount` | pkg/certificate/request.go:132-164 | a generated request has exactly one such name extension unless names are omitted or its own list replaces all |
| `Extensions.GeneratedExtensions` | pkg/certificate/request.go:132-164 | a generated request carries the usages, never critical, if some is known, then the names, critical exactly without a subject, or else its own list |
| `Extensions.PurposeOids` | pkg/certificate/extKeyUsage.go:94-123 | the identifiers of the nine purposes |
| `Extensions.OtherOids` | pkg/certificate/extKeyUsage.go:94-123 | and of the others |
| `Extensions.GenerateCSR` | pkg/certificate/request.go:132-164 | names, then usages, then the request's own list, which overrides |
| `Extensions.CertificateRequest.AddSubjectAltNames` | pkg/certificate/x509SubjectAltName.go:54-85 | the new extension comes first, all of its kind are replaced, and the name fields are cleared |
| `Extensions.CertificateRequest.AddExtKeyUsage` | pkg/certificate/extKeyUsage.go:266-301 | the same for usages; no change if none is known |
| `ExtKeyUsages.EachUsageOnce` | pkg/certificate/extKeyUsage.go:360-400 | however usages are added, each known one is held once, after those held before |
| `ExtKeyUsages.FirstMentionOrder` | pkg/certificate/extKeyUsage.go:360-381 | new usages stand in the order of their first mentions |
| `ExtKeyUsages.OneOidPerUsage` | pkg/certificate/extKeyUsage.go:266-275 | so the extension names every usage once, in order |
| `ExtKeyUsages.ExtKeyUsageSlice.AddStrings` | pkg/certificate/extKeyUsage.go:360-381 | known usages are added and the unknown texts are reported, in order |
| `ExtKeyUsages.ExtKeyUsageSlice.AppendByEku` | pkg/certificate/extKeyUsage.go:392-400 | an unknown usage is refused, a known one added unless held |
| `PemText.DecodeEncoded` | pkg/certificate/certificateCollection.go:79-97 | decoding the text of a block, whatever follows, gives the block and what follows |
| `PemLaws.CarriesIff` | pkg/util/pemUtil.go:194-201 | a block is read back from its PEM text, no line of which looks like an END line, exactly if it has no headers but those of an encrypted block, each one line without white space around it |
| `PemLaws.ProperIff` | pkg/certificate/certificateCollection.go:79-97 | so writing and reading a collection asks for no more than acceptable certificates, key and request of their types, and a pickup line free of BEGIN markers |
| `KeyText.EncryptedTextIff` | pkg/util/utils.go:68-86 | it panics exactly if the first block is no RSA or EC key; the text returned holds the key, encrypted, exactly if the random source yields a vector, and is otherwise empty, without an error |
| `KeyText.EncryptedTextRoundTrip` | pkg/util/utils.go:68-86 | from data to encrypted block to PEM text and back, for every cipher and whatever follows |
| `PemText.NothingToDecode` | pkg/certificate/certificateCollection.go:79-83 | text without a BEGIN marker holds no block |
| `PemText.EncodedText` | pkg/certificate/certificateCollection.go:79-97 | the frame of a block, character by character |
| `PemText.LeadingTextIsSkipped` | pkg/certificate/certificateCollection.go:79-97 | text before a block, and whatever follows it, is passed over |
| `PemText.WrongEndIsRefused` | pkg/certificate/certificateCollection.go:79-97 | a block whose END line names another type is none |
| `PemCollection.WriteThenRead` | cmd/vcert/result_writer.go:260-290 | writing and reading with the same chain option gives back certificate and chain in order, skipping request and pickup id; the key comes back with all that was written after it |
| `PemCollection.KeyAloneIff` | pkg/certificate/certificateCollection.go:92-94 | the key comes back alone exactly if nothing was written after it |
| `PemCollection.ScanOfBlocks` | pkg/certificate/certificateCollection.go:79-97 | scanning blocks and trailing text finds every certificate in order and keeps the text from the last key on |
| `PemCollection.PEMCollectionFromBytes` | pkg/certificate/certificateCollection.go:64-127 | an error exactly if a certificate block does not parse; else the fresh collection holds the arranged contents |
| `PemCollection.OneBlockRead` | pkg/certificate/certificateCollection.go:84-97 | a block alone is taken for a private key exactly if it is of one of four types, and for a certificate if it is that |
| `PemCollection.ScanBlocks` | pkg/certificate/certificateCollection.go:79-97 | the loop computes the scan |
| `PemCollection.FormatOutput` | cmd/vcert/result_writer.go:260-290 | the text grown piece by piece is the layout of the chain option |
| `PemCollection.Layouts` | cmd/vcert/result_writer.go:260-284 | the three layouts |
| `PemCollection.PickupLine` | cmd/vcert/result_writer.go:285-290 | the pickup id follows everything else, quoted and on a line of its own |
| `PemCollection.PEMCollection.AddChainElement` | pkg/certificate/certificateCollection.go:155-163 | the element is appended, and a nil certificate refused |
| `PemCollection.PEMCollection.AddPrivateKey` | pkg/certificate/certificateCollection.go:130-152 | a second key is refused, and one that cannot be written or encrypted |
| `ResultWriter.Sinks.Flush` | cmd/vcert/result_writer.go:315-422 | it fails exactly if there is no collection or some sink refuses; a refusal does not keep other sinks from their text |
| `ResultWriter.FilesGetTheirShare` | cmd/vcert/result_writer.go:325-402 | with distinct files, or where nothing but empty text goes to a file before the last, every file ends up with exactly the parts meant for it, and no other file is touched |
| `ResultWriter.HoldsShareIff` | cmd/vcert/result_writer.go:325-402 | a written file, shared or not, holds its share exactly if the layout leaves no text for what goes there before the last |
| `ResultWriter.FileHoldsLast` | cmd/vcert/result_writer.go:325-439 | for every configuration, what each file holds afterwards |
| `ResultWriter.StdoutGetsItsShare` | cmd/vcert/result_writer.go:323-409 | standard output gets exactly the parts meant for it |
| `ResultWriter.LastWriteWins` | cmd/vcert/result_writer.go:424-439 | whatever the files, a file ends up with the last text written to it, and stays as it was if there is none |
| `ResultWriter.IsLostIff` | cmd/vcert/result_writer.go:260-439 | when nothing that is found afterwards depends on a part: the layout drops it, no output takes it, or a part that is written later goes to the same file |
| `ResultWriter.KeyOverwritesCertificate` | cmd/vcert/result_writer.go:353-381 | one file for certificate and key ends up with the key alone; the certificate is overwritten |
| `ResultWriter.CsrIsKeptIff` | cmd/vcert/result_writer.go:365-372 | the request file holds the request with the root-last option and is empty otherwise |
| `ResultWriter.AllFileReadsBack` | cmd/vcert/result_writer.go:325-350 | the file for everything reads back as the collection, but for the request and for the chain after the key |
| `ResultWriter.CertificateFileReadsBack` | cmd/vcert/result_writer.go:353-363 | the certificate file reads back as certificate and chain |
| `SetPolicyLaws.SuccessMeans` | pkg/venafi/cloud/connectorPolicy.go:40-169 | the compiled request is stored under its name and the application exists; the alias is there exactly if it was before or the write was accepted, and points where it did if found working, else at the new template; the owners are those named if the write was accepted, the former ones if it was not, and the current user of a new application without users |
| `SetPolicyLaws.SuccessMeansFor` | pkg/venafi/cloud/connectorPolicy.go:40-169 | for a zone of two segments, the application and the template: the same about the application of that name and the template of that name, which holds what is compiled for the named authority; a new application has nothing else set |
| `SetPolicyLaws.EverythingElseStaysFor` | pkg/venafi/cloud/connectorPolicy.go:40-169 | and the call touches no other template and no other application |
| `SetPolicyLaws.OtherSegments` | pkg/policy/policyUtils.go:1329-1343 | with one segment, or three and more, it changes nothing |
| `SetPolicyLaws.SpecificationAfter` | pkg/venafi/cloud/connectorPolicy.go:64-89 | a specification that passed its checks names its authority afterwards, and nothing else of it changes |
| `SetPolicyLaws.AliasIsLookedUpIff` | pkg/venafi/cloud/connectorPolicy.go:140-262 | the names are left in the connector exactly if the application is found |
| `SetPolicyLaws.EverythingElseStays` | pkg/venafi/cloud/connectorPolicy.go:40-169 | whatever comes of a call: other templates and applications, other aliases, and owners when no users are given, stay as they were |
| `SetPolicyLaws.Idempotent` | pkg/venafi/cloud/connectorPolicy.go:40-169 | repeating a successful call leaves the service as it is, and succeeds exactly if the application can be looked up |
| `SetPolicyLaws.SucceedsIff` | pkg/venafi/cloud/connectorPolicy.go:40-169 | when a call succeeds, in full |
| `SetPolicyLaws.TemplatesStayIff` | pkg/venafi/cloud/connectorPolicy.go:93-138 | a call leaves all templates as they were exactly if its request was not compiled, the templates not listed, the write not done, or the template held the request already |
| `SetPolicyLaws.FailureChangesTemplatesIff` | pkg/venafi/cloud/connectorPolicy.go:93-169 | so when a failing call has changed them all the same |
| `SetPolicyLaws.TemplateOutlivesFailure` | pkg/venafi/cloud/connectorPolicy.go:107-146 | once accepted, the template holds the request whatever becomes of the call; a missing application name is noticed only then |
| `SetPolicyLaws.AppsStayIff` | pkg/venafi/cloud/connectorPolicy.go:140-169 | a call leaves all applications as they were exactly if its request was not compiled, the application was not reached, the write not done, or there was nothing to write or nothing new |
| `SetPolicyLaws.FailureChangesAppsIff` | pkg/venafi/cloud/connectorPolicy.go:140-169 | a failing call has changed an application exactly if its write, not answered, was done and made a difference |
| `SetPolicyLaws.FailureSparesApplications` | pkg/venafi/cloud/connectorPolicy.go:140-169 | in any state, a call that fails touches no application, unless its write got no answer |
| `SetPolicyLaws.PanicsIff` | pkg/venafi/cloud/connectorPolicy.go:40-169 | when a call panics, in full: in validating, in compiling what validation accepted, on a create answer without the template, or in linking the application |
| `SetPolicyLaws.CompilesIff` | pkg/policy/policyUtils.go:907-928 | a specification compiles exactly if its authority has three segments and its default units are not an empty list, on which the compiler panics |
| `SetPolicyLaws.ValidationPanicsIff` | pkg/policy/policyUtils.go:795-800 | validation panics exactly on refused default units without a default organization, the checks before having passed |
| `SetPolicyLaws.OwnersOfEach` | pkg/venafi/cloud/connectorPolicy.go:360-396 | owners are resolved all together or not at all, each on its own |
| `SetPolicyLaws.OwnerMeaning` | pkg/venafi/cloud/connectorPolicy.go:360-396 | a name stands for the first user found, or else for the first team of that name |
| `SetPolicyLaws.OwnersPanicIff` | pkg/venafi/cloud/connectorPolicy.go:367-373 | a lookup panics exactly on an empty list of users reached after all earlier names were resolved |
| `SetPolicyLaws.RunKeepsSound` | pkg/venafi/cloud/connectorPolicy.go:264-358 | over every run of calls template ids stay unique and no alias dangles |
| `SetPolicyLaws.PolicyStands` | pkg/venafi/cloud/connectorPolicy.go:101-138 | over every run a policy stands until a call for its own template name |
| `SetPolicyLaws.AliasMovesIff` | pkg/venafi/cloud/connectorPolicy.go:308-350 | when a call, whatever comes of it, moves an alias, in full, and where to: it is the alias of the call, its lookup fails, the application is written, answered or not, and the alias named another template |
| `SetPolicyLaws.AliasNeverMoves` | pkg/venafi/cloud/connectorPolicy.go:308-350 | so over every run an alias keeps its template while alias lookups work |
| `SetPolicyLaws.FailedLookupMovesAlias` | pkg/venafi/cloud/connectorPolicy.go:251-262 | after success a failed lookup has counted as no alias, and moved it to the stored template |
| `SetPolicyLaws.TemplateFrame` | pkg/venafi/cloud/connectorPolicy.go:101-138 | writing a template changes the one of that name only |
| `SetPolicyLaws.TemplateIsThere` | pkg/venafi/cloud/connectorPolicy.go:107-138 | an accepted write leaves the request under its name and keeps the id; it is handed on unless a create answer lists no template |
| `SetPolicy.WithAuthorityCompiles` | pkg/venafi/cloud/connectorPolicy.go:64-89 | filling in the default authority changes nothing of the compiled request |
| `SetPolicy.Connector.SetPolicy` | pkg/venafi/cloud/connectorPolicy.go:40-169 | the steps compute `Setting`, and change the specification and the zone as stated |
| `SetPolicy.Connector.ResolveOwners` | pkg/venafi/cloud/connectorPolicy.go:360-396 | the loop with its cached teams resolves as a lookup per name does |
| `SetPolicy.Connector.CreateApplication` | pkg/venafi/cloud/connectorPolicy.go:264-306 | the new application holds the alias and the resolved or current owners |
| `SetPolicy.Connector.UpdateApplication` | pkg/venafi/cloud/connectorPolicy.go:308-350 | the application is written only if the alias was added or owners were given |
| `SetPolicy.Connector.AddCitToApp` | pkg/venafi/cloud/connectorPolicy.go:352-358 | the alias is set |
| `SetPolicy.Connector.PolicyExist` | pkg/venafi/cloud/connectorPolicy.go:251-262 | any failed lookup counts as absent; the zone takes the names |
| `SetPolicy.Connector.GetCit` | pkg/venafi/cloud/connector.go:1399-1427 | the first template of the name |
| `WordWrap.WrapArgumentDescriptionText` | cmd/vcert/usage.go:24-73 | the result is the text cut at whitespace: every line fits, no break is needless, only spaces are dropped |
| `WordWrap.WrappingKeepsWords` | cmd/vcert/usage.go:24-73 | so the words are kept, in order |
| `WordWrap.AsciiLines` | cmd/vcert/usage.go:24-73 | for ASCII text a line has at most 80 bytes, or is at most one byte and a word of 80 or more |
| `Polling.RetrieveCertificate` | cmd/vcert/utils.go:284-307 | the loop ends at the first call at which it may leave, with the answer of that call |
| `Polling.FirstAnswerOrTimeUp` | cmd/vcert/utils.go:284-307 | the first answer that is not pending is returned, as what it is, unless time ran out before; a time-out is never early |
| `Polling.CallBound` | cmd/vcert/utils.go:284-307 | at most one call per whole pause and two more; exactly one if the timeout is not positive |
| `Polling.CallBoundIsMet` | cmd/vcert/utils.go:284-307 | and the bound is reached |
| `Newest.FindNewestCertificateWithSans` | pkg/certificate/certificate.go:492-525 | the newest certificate with the wanted names, the earliest on ties, or null exactly if there is none; all lists end sorted, shared arrays included |
| `Newest.SortedNamesEqualIff` | pkg/certificate/certificate.go:500-506 | sorted lists are equal exactly if the names are the same, equally often, nil differing from empty |

## Left out

- HTTP, GraphQL, JSON, YAML, files, clocks and prompts: requests and answers are parameters or values, and a
  file write either happens whole or not at all.
- The Trust Protection Platform, Firefly and fake connectors, request building from flags, provisioning, and
  the formats JSON, PKCS#12 and JKS of the writer.
- Regular expressions outside the fragment the compiler emits and plain text: an expression that does not
  parse in the fragment matches nothing here, which is also what the endpoint does with one that Go rejects.
  The texts of the four address expressions are kept as names, and address, UPN and wildcard checks of the
  policy are not modelled.
- ToUpper: upper-casing is that of ASCII; other letters never occur in the names compared.
- BuildPolicySpecification: the authority's name, which another request fetches, is a parameter; the same
  holds of `ReadSpec`.
- BuildPolicy: the expressions for addresses and for user principal names are left out of the policy.
- ValueMeaning, CompiledSubjectMeaning and DefaultsPassPolicyIff: list values are made of plain characters,
  dots, `.*` and parenthesised words; other operators, classes and escapes in them are outside the fragment.
- CompiledDomainsMeaning, CompiledEmailMeaning, CompiledUriMeaning, HostRegexMeaning, DomainRulesMeaning,
  EmailRegexMeaning and UriRegexMeaning: characters of domains other than dots, and all characters of
  protocols, have no meaning in expressions.
- Validate: the order of the five alternative-name errors depends on map iteration, so they are one error.
- ValidateCertificateRequest as a whole: only its two checks, for components and for keys, are modelled.
- DecryptOfEncrypt and the other laws of `Rfc1423`: block ciphers and MD5 are parameters, decryption and
  encryption of a block being inverse under every key; creating a cipher with a key of the listed size does
  not fail.
- DecodeEncoded: the header and base64 lines inside a PEM block are a parameter, of which `PemBody.PEM` is the
  one Go uses; the END line is looked for before the header lines are read, which differs from Go for
  headers that no empty line follows.
- CarriesIff: of headers only Proc-Type and DEK-Info are written, no others being used.
- Flush: the JSON, PKCS#12 and JKS formats are left out, so the texts are those of the PEM format.
- Read: lengths from 2^31 on are refused, as Go does; the text types other than UTF-8, and the validity of
  UTF-8, are a parameter.
- GetUserPrincipalNameSANs: object identifier arcs too large for Go are not told apart.
- GenerateCSR and AddStrings: the encoding of object identifiers and the table of usage names are parameters.
- FindNewestCertificateWithSans: validity ends are whole seconds.
- WrapArgumentDescriptionText: a character counts as many bytes as its UTF-8 form; invalid UTF-8 is not
  modelled.
- Server: applications are kept by name, one id each; the service stores what it accepts unchanged and
  refuses a second application of a name.
- SetPolicy: the error texts and the status texts on failure are not modelled.
