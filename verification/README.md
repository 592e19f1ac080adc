# CyberSAS: a verified model of its decisions

CyberSAS is a private network of devices. Each device keeps sessions with the others, end to
end, over a server that relays what it cannot read. A policy says who may open what; an offline
lock signs certificates, policies and revocation lists; the server hands out addresses and keeps
the firewall, the team and the relays in agreement.

This project models what those parts decide, and proves what they promise. Cryptography is
symbolic: a shared secret does not depend on the end that computes it, and a sealed text opens
under its own key, nonce and associated data only. Nothing of the network is trusted: it drops,
repeats, reorders and forges.

## How it is laid out

| file | what it models |
|---|---|
| `Termes.dfy`, `Noise.dfy`, `Poignee.dfy` | messages and keys as terms; the Noise IK handshake (Noise Protocol Framework revision 34, sections 4.3, 5.2, 5.3 and 7.5), its objects and what they guarantee |
| `Fenetre.dfy`, `Session.dfy`, `Livraison.dfy` | the replay window (the job of section 3.4.3 of RFC 4303) as a ring of bits that refines a set; sessions; one direction of a session with concurrent decryptions |
| `Table.dfy`, `Pairs.dfy`, `Moteur.dfy` | the index table; the peers of an engine as values; the engine and all its handlers |
| `Etats.dfy`, `Accord.dfy` | what can happen to a peer, in one place; any number of honest devices against an adversary that owns the network |
| `Raffinement.dfy`, `Interface.dfy` | every handler of the engine is a run of such steps, so what holds of devices holds of engines; the gates in front of the interface, and what comes out of them |
| `Octets.dfy`, `Trames.dfy`, `Routage.dfy` | bytes, relay frames, IPv4 headers, a packet all the way; the choice of a peer |
| `Politique.dfy`, `Client.dfy`, `Suivi.dfy` | from the policy to the packet; from what the server announces and the lock signed to the filter, over the life of a device; flow tracking |
| `Seaux.dfy`, `Adresses.dfy`, `Noms.dfy` | the rate limiter; the allocators of addresses and names |
| `Equipe.dfy`, `Synchro.dfy` | the team file as text; reconciliation over a firewall that fails |
| `Encodages.dfy`, `Revocations.dfy`, `Rejeux.dfy` | what the lock signs; revocation lists; registration proofs |

Objects that the program updates in place are classes, each method proved against a function of
the old state; the theorems are about those functions and about whole runs of them. Entities
keep the names they have in the source.

## What the proofs found

- A peer listed under the server's own public key makes the server pair itself a relayed one
  (`Pairs.ServeurJamaisRelaye` says exactly when). Sending still ends in every state, because a
  frame is longer than what it holds (`Moteur.Moteur.Expedier`).
- The rule that keeps the last admin never decides anything: a change it refuses is refused by
  another rule already (`Equipe.DernierAdminSuperflu`).
- A bucket idle for one second need not be full (`Seaux.InactifPasPlein`), so 20 requests and
  10 per second is not a bound in every run: from the empty table forty can be granted in a
  second and a half (`Seaux.DixNeSuffitPas`). It is one for a key whose bucket is never dropped
  before it is full, and 20 per second is one always.
- For the same reason the cleaning of every minute is invisible only as long as no new key finds
  the table full (`Seaux.OubliInvisible`). Under pressure it shows in some later run as soon as it
  forgets anything at all (`Seaux.OubliExact`).
- After a firewall failure the signature of the last full application is kept, so a configuration
  that comes back may stay half applied (`Synchro.NeConvergePas`); it is whole again exactly if
  every passage since that application wanted all of it (`Synchro.Converge`). Failures restrict
  pairs and relations but not who sees whose name, which may then exceed what is wanted
  (`Synchro.VoitDepasse`, exactly when: `Synchro.VoitReste`).
- A later ICMP fragment passes under a ping rule, where `docs/protocole.md` says that only an
  "everything" rule lets one in; the model follows the code (`Politique.FragmentPasse`).
- Revocation is permanent if and only if, of two signed lists of different versions, the newer
  holds every key of the older (`Revocations.PermanenteSiChaine`). What the server accepts from the
  application keeps that; the file of the command line passes no such test
  (`Revocations.Registre.Relire`); an admin from whom a list is hidden breaks it
  (`Revocations.SansChaineOubli`).
- The client files the team under owners in lower case and looks them up as certificates write
  them: a certificate whose owner has a capital letter is in no rule, "*" included
  (`Client.MajusculeExclue`, exactly when: `Client.Presence`).
- Networks narrower than /30 are given unusable addresses (`Adresses.TropEtroit`).

## Model

| member | source | states |
|---|---|---|
| Fenetre.Fenetre.Possible | internal/tunnel/session.go:90-104 | answers exactly whether the counter is below the limit, was never accepted, and is above the largest or within 2047 of it |
| Fenetre.Fenetre.Avancer | internal/tunnel/session.go:112-122 | a jump clears every place between the old and the new largest counter and no place still inside the window |
| Fenetre.Fenetre.Accepter | internal/tunnel/session.go:106-135 | the same answer as `Possible` in the same state; the set of counters seen gains this one if and only if the answer is yes, and the ring stays an exact picture of it |
| Fenetre.JamaisDeuxFois | internal/tunnel/session.go:106-135 | over any sequence of calls no counter is accepted twice |
| Fenetre.ReponseSelonLeRecit | internal/tunnel/session.go:106-135 | over any sequence of calls the answer is determined by which earlier calls were accepted: below the limit, never accepted, within 2047 of the largest |
| Session.Session.Chiffrer | internal/tunnel/session.go:44-56 | seals under the current counter, padded to 16 bytes where that fits, and moves the counter by one modulo 2^64 |
| Session.Session.Dechiffrer | internal/tunnel/session.go:60-73 | opens if and only if the tag is right and the counter is acceptable; the window gains the counter then, and is untouched otherwise |
| Session.Remplissage | internal/tunnel/session.go:46-49 | padding is below 16, reaches a multiple of 16, and never passes the largest plaintext |
| Livraison.EtapeGardeInv | internal/tunnel/session.go:44-73 | every step of a session over a hostile network, with other decryptions in between the two window tests, keeps counters delivered at most once and authentic |
| Livraison.AuPlusUneFois | internal/tunnel/session.go:44-73 | on every schedule no counter is delivered twice, and every plaintext delivered is the one the sender sealed under its counter, followed by its zero padding |
| Livraison.NonceUnique | internal/tunnel/session.go:32-56 | no sender nonce repeats or wraps before the session refuses to seal |
| Livraison.ArriveSiRecevable | internal/tunnel/session.go:60-73 | a message still inside the window that is not interrupted is delivered |
| Noise.EtatSymetrique.ChiffrerEtHacher | internal/noise/noise.go:126-136 | the object updated in place does what the symmetric state of the standard does |
| Noise.EtatSymetrique.DechiffrerEtHacher | internal/noise/noise.go:138-151 | a failed opening leaves the symmetric state as it was |
| Noise.Initiateur.Message1 | internal/noise/noise.go:180-206 | the new state and the message are those of the pattern, in every branch, including those where a key is refused |
| Noise.Initiateur.LireMessage2 | internal/noise/noise.go:209-234 | reading works on a copy: the state changes only if the whole message reads |
| Noise.Repondeur.LireMessage1 | internal/noise/noise.go:254-278 | the new state, the initiator's key and the payload are those of the pattern, in every branch |
| Noise.Repondeur.Message2 | internal/noise/noise.go:281-304 | the new state, the message and the two keys are those of the pattern |
| Poignee.Message1Authentique | internal/noise/noise.go:254-278 | a first message is accepted if and only if it is the one a holder of the announced key would write for this responder and prologue |
| Poignee.Message2Authentique | internal/noise/noise.go:209-234 | an answer is accepted if and only if a responder that read this very first message wrote it; both ends then hold equal hashes and swapped keys |
| Poignee.PoigneeAboutit | internal/noise/noise.go:180-304 | an honest run delivers both payloads and the initiator's key, with equal hashes and the same two distinct keys swapped |
| Poignee.RefusSansTrace | internal/noise/noise.go:209-234 | however many forged answers were refused first, the true one is still accepted with the same keys |
| Poignee.ClesDeterminent | internal/noise/noise.go:153-157 | two handshakes that share a transport key share the four secrets behind it |
| Poignee.NonceJamaisRepris | internal/noise/noise.go:112-136 | whatever a handshake hashes, mixes and seals, no key and nonce seal twice |
| Table.Echange | internal/tunnel/moteur.go:427-436 | a pair that gives indices up and takes free ones leaves the index table exact |
| Table.AuPlusQuatre | internal/tunnel/moteur.go:138-184 | an exact table holds at most four indices per pair: it cannot leak |
| Table.IndiceLibre | internal/tunnel/moteur.go:173-184 | a free index exists while fewer are taken than there are |
| Pairs.HorodatageCroit | internal/tunnel/messages.go:93-104 | timestamps never go back, grow strictly within 2^24 ns, and compare byte by byte as numbers |
| Pairs.LanceProgresse | internal/tunnel/moteur.go:410-446 | an initiation leaves only if the pair could start one, and it cannot start another at that instant |
| Pairs.EnvoyeProgresse | internal/tunnel/moteur.go:374-397 | beside such an initiation, all that leaves is longer than the plaintext by the header and the tag at least |
| Pairs.SeuleSession | internal/tunnel/moteur.go:704-717 | one index belongs to the sessions of one pair |
| Pairs.SeulePlace | internal/tunnel/moteur.go:711-717 | within a pair, the order in which the slots are searched does not matter |
| Pairs.InscritsExacts | internal/tunnel/moteur.go:229-253 | naming pairs, old or new, keeps the index table exact |
| Pairs.ListeAppliquee | internal/tunnel/moteur.go:224-275 | the three passes over a list leave exactly the pairs it names, each with the number and path of its last entry, and an exact table without the indices of those that left |
| Pairs.ServeurJamaisRelaye | internal/client/client.go:342-347 | in the list a client gives its engine, the server pair is not relayed if and only if no device of it is kept under the server's key |
| Pairs.ListeClientRegle | internal/client/client.go:342-347 | such a list always designates the server, and makes it direct exactly when it is not relayed |
| Pairs.ExactExpiration | internal/tunnel/moteur.go:863-870 | dropping the expired sessions of a pair with their indices keeps the table exact |
| Pairs.SainesApres | internal/tunnel/moteur.go:77-106 | a step that spoils no session and adds one at most leaves every window valid and separate |
| Moteur.Moteur.ReserverIndice | internal/tunnel/moteur.go:173-184 | a free nonzero index is bound to the pair, and none to a pair that left |
| Moteur.Moteur.QuatreParPair | internal/tunnel/moteur.go:138-184 | in every valid state the table holds at most four entries per pair |
| Moteur.Moteur.DefinirCle | internal/tunnel/moteur.go:207-220 | a new key leaves no pair, no index, no session |
| Moteur.Moteur.DefinirPairs | internal/tunnel/moteur.go:224-275 | exactly the listed keys remain, pairs that stay keep their sessions, those that leave lose all their indices, and the table stays exact |
| Moteur.Moteur.LancerPoignee | internal/tunnel/moteur.go:410-446 | while a handshake is pending and no cookie came, none starts within five seconds of the last; each takes a fresh index; what leaves and what the pair becomes are fully determined, the rest of the engine is unchanged |
| Moteur.Moteur.EnvoyerClair | internal/tunnel/moteur.go:374-397 | seals under the current counter if the session can, after an initiation if it is due; otherwise the plaintext waits on the initiating side, up to 32, or is lost |
| Moteur.Moteur.RecevoirInitiation | internal/tunnel/moteur.go:537-618 | anything not admitted changes nothing; an admitted one opens exactly one unconfirmed session with the keys read, records its date, and is answered the way it came |
| Moteur.Moteur.RecevoirReponse | internal/tunnel/moteur.go:620-672 | an answer not expected changes nothing; the expected one makes the handshake the current session, the current the previous, and sends all that waited in order under counters 0, 1, 2... |
| Moteur.Moteur.TrouverSession | internal/tunnel/moteur.go:703-720 | finds the one session with this index, if its pair speaks by this path and it is not too old; otherwise there is none |
| Moteur.Moteur.OuvrirDonnees | internal/tunnel/moteur.go:699-763 | nothing changes unless the message opens; then its session is promoted if it was waiting, the pair follows the source address, and only a pair that answers may send a sign of life |
| Moteur.Moteur.Dechiffrer | internal/tunnel/moteur.go:704-724 | the window of the session found gains the counter if and only if the message opens, and no other window changes; what was opened so far, session and counter, gains exactly this |
| Moteur.Moteur.Confirmer | internal/tunnel/moteur.go:728-737 | promotion on first data moves the slots and keeps the table exact |
| Moteur.Moteur.RecevoirCookie | internal/tunnel/moteur.go:674-697 | a readable cookie for a pending direct handshake only clears the wait before the next attempt |
| Moteur.Moteur.RecevoirTrame | internal/tunnel/moteur.go:802-839 | a cookie in a frame is dropped, on the server and on a client; on the server nothing is relayed without a number, a relation, a known and different recipient; on a client a frame from anyone but the server is dropped whole |
| Moteur.Moteur.RecevoirDonnees | internal/tunnel/moteur.go:699-791 | receiving ends, frames being over smaller messages; a message that does not open changes nothing; what is handed over is the packet opened last, under a counter its session never opened before |
| Moteur.Moteur.UnSeulNiveau | internal/tunnel/moteur.go:530-535 | while the server pair is not relayed, a frame inside a relayed session comes from a pair that is not the server, and is dropped |
| Moteur.Moteur.RecevoirRelaye | internal/tunnel/moteur.go:844-854 | a message out of a frame is handled under the number the server announced; a cookie, or one that no key vouches for, changes nothing and draws nothing |
| Moteur.Moteur.Traiter | internal/tunnel/moteur.go:509-524 | whatever arrives, the engine stays in order; a message that no key vouches for changes nothing and draws at most a cookie |
| Moteur.Moteur.Expedier | internal/tunnel/moteur.go:320-329 | sending ends in every state; every direct message leaves as it is, and only the server pair may change |
| Moteur.Moteur.Relayer | internal/tunnel/moteur.go:361-370 | a message for another device leaves in a frame sealed for the server, or not at all if there is no server or it is too long |
| Moteur.Moteur.Vieillir | internal/tunnel/moteur.go:863-870 | exactly the sessions of three minutes or more are dropped, with their indices |
| Moteur.Moteur.OuvrirSiBesoin | internal/tunnel/moteur.go:871-886 | a handshake starts exactly when the session is due while the pair is the server or something waits, or nothing came back for too long |
| Moteur.Moteur.EntretenirActif | internal/tunnel/moteur.go:887-901 | a keep-alive leaves exactly when it is due, and a pair unreachable for ninety seconds forgets what waits |
| Moteur.Moteur.Entretenir | internal/tunnel/moteur.go:871-909 | a direct pair whose session is due always has a handshake pending afterwards |
| Moteur.Moteur.Minuterie | internal/tunnel/moteur.go:858-914 | after the tick no pair holds a session of three minutes or more; the whole tick, and all that leaves, is a run of the device that follows the engine |
| Moteur.Moteur.Derouler | internal/tunnel/moteur.go:298-316 | over any sequence of messages, sends, lists, keys and ticks the table stays exact, with at most four entries per pair, the sessions stay in order and no session opens one counter twice; while the key stays, each event is one step of the device that follows the engine |
| Moteur.Moteur.Vivre | internal/tunnel/moteur.go:298-329 | one event, from the message received to the datagrams that leave, is a run of steps of the device that follows the engine, shown only what the network knew; what is handed over was opened |
| Moteur.Moteur.Etablir | internal/tunnel/moteur.go:646-672 | the session an answer opens takes the handshake's index, becomes current before all that waited leaves under it |
| Accord.InitiationAuthentique | internal/tunnel/moteur.go:564-599 | an initiation naming an honest device that reads well was written by it, for us |
| Accord.ReponseAuthentique | internal/tunnel/moteur.go:641-645 | an answer to our initiation to an honest device was written by it, with our keys swapped |
| Accord.BoutsOpposes | internal/noise/noise.go:153-157 | one session's sending key is another's receiving key only if they are the two ends of one handshake |
| Accord.DonneeAuthentique | internal/tunnel/moteur.go:721-724 | whatever opens under a session with an honest device was sealed by it for us, under this counter |
| Accord.EtapeGarde | internal/tunnel/moteur.go:537-737 | every step of every device and of the adversary keeps the invariant |
| Accord.AccordDesDeux | internal/tunnel/moteur.go:537-737 | on every run, a session an honest device uses with another is held by that other, for it, with the same keys swapped; a responder's was completed by the peer that had opened it |
| Accord.Authenticite | internal/tunnel/moteur.go:699-737 | on every run, every plaintext opened from an honest device, relay frames included, was sealed by it for the one that opened it |
| Accord.ClesSecretes | internal/noise/noise.go:153-157 | on every run, the keys between two honest devices are never computable by the adversary |
| Accord.ReponsesDistinctes | internal/tunnel/moteur.go:578-603 | no replay opens a session anew: two answers never share a key |
| Accord.InitiationsAuthentiques | internal/tunnel/moteur.go:564-599 | on every run, an initiation acted on was written by the honest device it names, at that date |
| Accord.SansAdversaire | internal/tunnel/moteur.go:410-737 | from any state, a handshake that is left alone ends with both devices using the new session |
| Raffinement.SimuleLance | internal/tunnel/moteur.go:410-446 | starting a handshake, as the handler's contract states it, is a device's step with a key it had not drawn |
| Raffinement.SimuleInitiation | internal/tunnel/moteur.go:564-618 | acting on an initiation is a device's step, given only the terms of that initiation |
| Raffinement.SimuleConclusion | internal/tunnel/moteur.go:641-672 | an answer that completes a handshake, with all that waited sealed under the new keys, is a run of a device's steps |
| Raffinement.SimuleEnvoi | internal/tunnel/moteur.go:374-397 | sealing a plaintext, after an initiation if one is due, is a run of a device's steps |
| Raffinement.SimuleEntend | internal/tunnel/moteur.go:721-763 | opening a message, promoting its session if it waited for that, and a sign of life, are a run of a device's steps, and what was inside was known to the network |
| Raffinement.SimuleExpire | internal/tunnel/moteur.go:863-870 | dropping expired sessions is a device's step |
| Raffinement.SimuleListee | internal/tunnel/moteur.go:224-275 | a new list is a run of a device's steps: pairs that stay keep all, pairs that come start with nothing |
| Raffinement.MondeDe | internal/tunnel/moteur.go:298-316 | whatever any number of engines do, each given only what the adversary saw or computed, one world of devices follows them all at once |
| Raffinement.VieHistoire | internal/tunnel/moteur.go:298-316 | any number of engines, each living the life that `Derouler` describes, and the adversary, interleaved in any order, are a history as long as nobody is given what was not seen |
| Raffinement.AccordDesMoteurs | internal/tunnel/moteur.go:537-737 | the session an engine currently uses with another was opened by that other engine for it, with the same two keys swapped, in the opposite role |
| Raffinement.AuthenticiteDesMoteurs | internal/tunnel/moteur.go:699-737 | whatever an engine opened from another, that other engine sealed for it under this counter with these keys |
| Raffinement.ClesDesMoteurs | internal/noise/noise.go:153-157 | the keys of any session an engine holds with another are never among what the adversary sees or computes |
| Interface.Remettre | internal/tunnel/moteur.go:771-790 | an opened packet reaches the interface, without its padding, exactly if it reads, its source is an address of the peer it came from, it is for us, and that peer's filter lets it in or it answers what was sent to that peer |
| Interface.EcritJustifie | internal/tunnel/moteur.go:699-791 | whatever reaches the interface from an address known as an honest device's was sealed by that device's engine for this one, and its filter allows it or it answers a packet sent to that device before |
| Octets.GrosOrdonne | internal/tunnel/messages.go:93-104 | big-endian numbers compare as their bytes |
| Trames.AeadExiste | internal/tunnel/session.go:44-56 | what is asked of the cipher in what follows, to open what it sealed and add 16 bytes, can be met |
| Trames.ChiffreSeRelit | internal/tunnel/session.go:44-73 | a data message, of the type of data, opens under its session's index and key to its plaintext and padding; its length is known, and a frame may carry it |
| Trames.TrameSeRelit | internal/tunnel/moteur.go:337-356 | a frame, whatever padding follows it, gives back its number and its message |
| Trames.TropLong | internal/tunnel/moteur.go:331-345 | a frame is refused exactly when its message would not fit, and its two-byte length never overflows |
| Trames.RemplissageInvisible | internal/tunnel/messages.go:125-160 | padding after a packet changes nothing of what is read of it |
| Trames.PaquetOuTrame | internal/tunnel/moteur.go:764-774 | no plaintext is both a packet and a frame |
| Trames.Tailles | internal/tunnel/messages.go:53-66 | for any packet up to the MTU every plaintext on the way fits, and every datagram with its headers is at most 1500 bytes |
| Trames.UnSaut | internal/tunnel/moteur.go:802-806 | over one hop a framed message comes out with its number exactly if it is an initiation, an answer or data: anything else in a frame is dropped |
| Trames.DeBoutEnBout | internal/tunnel/moteur.go:802-839 | any packet up to the MTU goes through the server and comes out byte for byte, under its sender's number, past the type test of both hops; nothing is refused and every datagram fits |
| Routage.Router | internal/tunnel/moteur.go:474-487 | a peer with the longest prefix that contains the destination, and nobody if and only if none does |
| Politique.LirePorts | internal/politique/politique.go:120-147 | reads every port or nothing at all |
| Politique.PortSeRelit | internal/politique/politique.go:267-275 | what a port is written as reads back as that port |
| Politique.Choisir | internal/politique/politique.go:163-182 | exactly the addresses that the selectors designate among devices whose owner is still in the team |
| Politique.AjouterSoi | internal/politique/politique.go:198-215 | "soi" opens exactly between two devices of one person of the team |
| Politique.Compiler | internal/politique/politique.go:185-219 | between distinct addresses the flows open exactly what some rule, read directly, permits |
| Politique.Entrant | internal/politique/politique.go:304-326 | per source, exactly the ports the flows let it open here, each source once |
| Politique.VersRegles | internal/client/client.go:412-429 | fails exactly on an unknown protocol, and otherwise translates port by port |
| Politique.Autorise | internal/tunnel/filtre.go:31-50 | lets a packet in exactly when there is a filter that lets everything in, or one of whose rules lets it in |
| Politique.RegleFidele | internal/client/client.go:412-429 | a rule of the engine admits exactly what the port it comes from means |
| Politique.Construire | internal/client/client.go:328-346 | from the policy to the packet, on given devices and team: what gets in from an address is exactly what some rule allows it to open here |
| Politique.Relations | internal/politique/politique.go:280-293 | the server relates exactly the pairs of devices that a flow links either way, itself excluded |
| Politique.AdmisDoncRelie | internal/politique/politique.go:277-293 | what the filter of a device would let in, the server relays, provided it resolves the same rules on devices and groups that include those the device sees |
| Politique.Sortant | internal/politique/politique.go:241-264 | what a device is shown it may open at another is what the flows let it open there, with "*" standing for the rest |
| Politique.FragmentPasse | internal/tunnel/filtre.go:31-50 | a later fragment passes exactly under an "everything" rule, or under a ping rule if it is ICMP |
| Politique.FragmentIcmpSansTout | internal/tunnel/filtre.go:43-44 | an ICMP fragment does pass without an "everything" rule |
| Client.Construire | internal/client/client.go:275-349 | the pairs are exactly the well announced, certified, unrevoked devices; what gets in from an address is exactly what some rule of the policy in force, resolved on those devices and the groups of their certificates, allows; nothing if this device is not itself signed or no policy is in force |
| Client.SeulsLesSignes | internal/client/client.go:275-326 | nothing gets in but from the server or from a certified, unrevoked device that some rule names |
| Client.Presence | internal/client/client.go:305-323 | a device counts as being of the team exactly if its certificate writes its owner in lower case and the last certificate of that owner gives a group |
| Client.MajusculeExclue | internal/client/client.go:305-323 | a capital letter in the owner of a certificate keeps its device out of every rule |
| Client.Adhesion.Appliquer | internal/appareil/appareil.go:319-351 | what is learned is written before it is used; under a lock the pairs and the filter are those of `Construire` for what is kept then, and the policy is the one served unless it is bad or older than one seen; a key known revoked stays so; without a lock the announcements are believed |
| Client.Adhesion.Rejoindre | internal/appareil/appareil.go:127-180 | with the same lock what was revoked is carried over, and the lock changes only on request |
| Client.Adhesion.Vivre | internal/appareil/appareil.go:127-351 | over any run of served states, failed writes and registrations, given a chain: a key once known revoked is never again a pair, and what gets in is what a rule of a policy not older than any seen allows, from the server or a certified device not known revoked |
| Suivi.Suivi.Noter | internal/tunnel/filtre.go:95-114 | a new flow takes one unit of its peer's budget, a known one is renewed for its owner; counts stay equal to entries and within 10000 |
| Suivi.Suivi.Retour | internal/tunnel/filtre.go:118-127 | admits exactly the mirror of a live entry of that peer |
| Suivi.Suivi.Nettoyer | internal/tunnel/filtre.go:129-141 | drops exactly the entries past their end, and keeps the counts exact |
| Suivi.RetourJustifie | internal/tunnel/filtre.go:95-141 | over any run, a tracked return implies an earlier mirrored packet sent to that same peer |
| Suivi.ReponseAdmise | internal/tunnel/filtre.go:95-141 | over any run, the answer to a packet comes back for its whole duration, unless another peer owns the flow or the budget was full |
| Suivi.ReponseExacte | internal/tunnel/filtre.go:95-127 | at the instant of sending, exactly when the answer is tracked |
| Suivi.Sortir | internal/tunnel/moteur.go:465-468 | what the filter lets back in costs no entry; otherwise the answer is tracked exactly when the flow is this peer's, or nobody's and the budget allows one more |
| Suivi.ReponseParUneVoie | internal/tunnel/moteur.go:465-468 | over any run and for the whole duration, the answer to what was sent is let in by the filter or by an entry, unless another peer owned the flow or the budget was full |
| Seaux.Limiteur.Autoriser | internal/tunnel/cookie.go:186-211 | the table and the answer are those of the specification, eviction included |
| Seaux.Limiteur.Oublier | internal/tunnel/cookie.go:214-220 | drops exactly the buckets idle for longer |
| Seaux.ActeDepense | internal/tunnel/cookie.go:186-220 | no request or cleaning raises what a key may spend, at ten per second if its bucket is not dropped before it is full, at twenty always |
| Seaux.VingtEtDix | internal/tunnel/cookie.go:186-226 | over any stretch of a run in which pressure never drops the key's own bucket before it is full, at most 20 and 10 per second |
| Seaux.VingtEtVingt | internal/tunnel/cookie.go:186-226 | over any stretch of any run, at most 20 and 20 per second |
| Seaux.TableBornee | internal/tunnel/cookie.go:186-211 | the table never holds more than 100000 buckets |
| Seaux.OubliInvisible | internal/tunnel/cookie.go:213-226 | forgetting buckets idle for a minute changes no answer of any later run of requests and cleanings in which no new key finds the table full |
| Seaux.OubliVisible | internal/tunnel/cookie.go:192-226 | as soon as something is forgotten, some later run, which fills the table, is answered differently |
| Seaux.OubliExact | internal/tunnel/cookie.go:192-226 | the cleaning shows in no later run if and only if it forgets nothing |
| Seaux.InactifPlein | internal/tunnel/cookie.go:167-169 | an idle bucket is full exactly when its tokens and ten per second reach 20, surely after two seconds |
| Seaux.InactifPasPlein | internal/tunnel/cookie.go:167-169 | between one second and two, some idle bucket is not full |
| Seaux.DixNeSuffitPas | internal/tunnel/cookie.go:192-200 | a run from the empty table in which a key is granted forty requests in a second and a half |
| Adresses.AdresseLibre | internal/base/base.go:389-432 | the first free address in the order tried, or none after a whole round; for /30 or wider a usable one that is free, or none if and only if none is |
| Adresses.AdresseCorrecte | internal/base/base.go:389-432 | for /30 or wider: free, inside, not the network's, the broadcast's nor the server's; none if and only if none is free |
| Adresses.TropEtroit | internal/base/base.go:416-424 | narrower networks are only ever given an unusable address, outside for a /32 |
| Adresses.Tourniquet | internal/base/base.go:385-432 | over any run an address is given again only after every other usable one was given or found taken |
| Noms.ChoisirNom | internal/base/base.go:371-382 | ends, with the first candidate that is not taken |
| Equipe.LireEnLignes | internal/politique/politique.go:108-118 | line ends and a last empty line do not change the team read |
| Equipe.Reecrire | internal/serveur/equipe.go:73-96 | reading the new text gives the old team with exactly this person set or removed; all other lines keep their order and characters |
| Equipe.ValideAdressable | internal/serveur/equipe.go:35-40 | an address the server accepts has no white space, is no comment, and is already lower case |
| Equipe.DernierAdminSuperflu | internal/serveur/equipe.go:138-161 | a change is accepted exactly when an admin changes someone else who is there to remove; the last-admin rule only changes the answer of a refusal |
| Equipe.FichierEquipe.Membre | internal/serveur/equipe.go:170-241 | accepted, changes exactly this person and leaves the admin who asked; refused, changes nothing |
| Equipe.FichierEquipe.Demandes | internal/serveur/equipe.go:163-241 | no run of requests takes the last admin away |
| Synchro.Trier | internal/serveur/serveur.go:196-228 | keeps exactly the devices not revoked, not expired, in the team; erases exactly what the purge rule says |
| Synchro.Reconciliateur.Synchroniser | internal/serveur/serveur.go:237-330 | the new state is that of the specification, whatever the firewall did, and the engine always holds exactly the keys of the active devices; success is reported exactly when it is |
| Synchro.Reconciliateur.Boucle | internal/serveur/serveur.go:334-350 | over any number of passages the reconciler, its engine included, is where the specification says |
| Synchro.PassagesGardent | internal/serveur/serveur.go:283-330 | over any run what is in force stays within the last full application, and within what is wanted after each passage |
| Synchro.EchecNAjouteRien | internal/serveur/serveur.go:301-318 | a failed push adds no pair and no relation |
| Synchro.NulEnTrop | internal/serveur/serveur.go:190-318 | over any run nobody revoked, expired or out of the team is active after a passage |
| Synchro.RelationVoulue | internal/serveur/serveur.go:287-295 | over any run a relation in force is between kept devices that the policy of that passage links |
| Synchro.EnVigueur | internal/serveur/serveur.go:283-327 | after any run a pair or relation is in force exactly if the last full application and every passage since wanted it; who sees whose name is what that application wanted |
| Synchro.Converge | internal/serveur/serveur.go:283-327 | a passage with a firewall that works leaves all it wants in force exactly if its configuration was not the last applied in full, or every passage since has wanted all of it |
| Synchro.NeConvergePas | internal/serveur/serveur.go:283-317 | a run of three passages that ends short of what is wanted |
| Synchro.VoitReste | internal/serveur/serveur.go:301-322 | after any run, who sees whose name stays within what the last passage wants exactly if the last full application did |
| Synchro.VoitDepasse | internal/serveur/serveur.go:301-318 | a run after which nobody is active, yet two devices that are wanted nowhere still see each other's names |
| Encodages.MessageInjectif | internal/verrou/verrou.go:72-95 | two certificates share a message if and only if they are equal, up to fractions of a second of expiry |
| Encodages.VersionneInjectif | internal/verrou/verrou.go:122-125 | version and content can be read off a versioned message |
| Encodages.GenresDistincts | internal/verrou/verrou.go:45-51 | messages of the three kinds of documents are never equal |
| Encodages.ContenuRevocations | internal/verrou/verrou.go:138-146 | the content is that of the same keys, sorted |
| Encodages.ContenuInjectif | internal/verrou/verrou.go:136-146 | two contents are equal if and only if the lists hold the same keys as often, in whatever order |
| Revocations.UneSeuleEcriture | internal/b64/b64.go:23-43 | a key has one accepted writing |
| Revocations.Allonger | internal/client/revocations.go:47-84 | the next list holds exactly what the admin keeps, the served list if it is newer and well signed, and the keys asked for, under the next version; each refusal has its reason |
| Revocations.AllongerGardeChaine | internal/client/revocations.go:37-84 | starting from the newest signed list keeps signed lists a chain exactly if the new one also holds whatever else was signed under that newest version |
| Revocations.ChaineAvec | internal/client/revocations.go:37-84 | one more signed list keeps the chain if and only if it fits between the others |
| Revocations.CroissantesChaine | internal/serveur/admin.go:325-335 | lists in force that only grow are, as documents, a chain for the devices |
| Revocations.Registre.Recevoir | internal/serveur/admin.go:302-342 | a list is accepted exactly if readable, not against its sender, well signed, newer, and forgetting no key; what was in force goes on growing if it did so far |
| Revocations.Registre.Relire | internal/serveur/serveur.go:431-450 | the file of the command line replaces what is in force without a test: what was in force goes on growing exactly if its new content changes nothing or follows |
| Revocations.PermanenteSiChaine | internal/client/client.go:354-363 | no new device, whatever signed lists it is served in whatever order, ever forgets a revoked key, if and only if signed lists form a chain |
| Revocations.DeuxListesOubli | internal/client/client.go:354-363 | any two lists of growing versions of which the second misses a key of the first make a device below both learn that key and forget it |
| Revocations.SansChaineOubli | internal/client/client.go:354-363 | a server that hides a list from an admin: each admin keeps a chain, the three lists together are none, and a device forgets a revoked key |
| Rejeux.Memoire.DejaVue | internal/protocole/preuve.go:106-116 | forgets exactly the proofs older than ten minutes, and answers for the rest |
| Rejeux.Memoire.Connexion | internal/serveur/api.go:119-133 | only a registration that succeeds is remembered |
| Rejeux.ServieUneFois | internal/protocole/preuve.go:76-126 | over any sequential run a proof that served is refused ever after, its last instant included |
| Rejeux.DureesJustes | internal/protocole/preuve.go:33-36 | the window and the memory meet exactly |

## Left out

- Real cryptography: primitives are free constructors, so nothing is said of secrecy against guessing, of timing, or of low-order points; a public key that is nobody's is refused by the exchange.
- The engine holds its peers by value in a map and a session by reference; the source holds peers by reference, with a lock each. Handlers are atomic steps, so the interleavings of `DefinirPairs` with a handler that already looked a peer up are not modelled, and a peer that left is one whose key is no longer in the map.
- The pending handshake of a peer is a value in the engine; the object it is in the source is proved equal to that value in `Noise.dfy`.
- Random indices are any free index, and ephemeral keys are numbered as each device draws them. The search for a free index is shown to end for lists shorter than 2^30.
- Whether `mac1` holds, the cookie and load gates, the quota of relayed initiations and who may be relayed come in as decisions; the contents of cookies are not modelled.
- The addresses and filters of peers are values beside the engine (`Interface.dfy`), so the moment at which a new list replaces them is not ordered with the handlers.
- Symbolic messages are not bytes: a raw plaintext that happens to spell a frame is read as unreadable in the engine, and byte layouts are proved apart in `Trames.dfy`.
- Time 0 means never in the clocks of a peer, so the clock of the engine is taken to have started.
- In `Accord.dfy` a relaying server is a device like any other, honest or not; a message inside a frame counts as seen by the adversary, a session of a device with itself is left aside, and a sender may use any counter. The header indices are not covered by the encryption, and agreement is on keys, not on indices.
- A private key drawn anew makes a new device, so the journal of an engine starts again with it; `Raffinement.dfy` takes one engine per private key, handlers being atomic.
- Session.Session.Chiffrer: the bytes of the header and of the padding are in `Trames.dfy`.
- Lower-casing is any map of characters; white space is the Unicode list; the 64 KiB limit of the line reader and the two files written together are not modelled.
- The checks behind `valide` and `certifie` in `Client.dfy` (addresses, expiry, signatures, and for this device that the server echoes its own key, client.go:298) come in as decisions; the announced rules of a network without a lock come in as a ready filter.
- Revocations.Registre.Recevoir: does not model the erasing of the devices revoked; their exclusion is in `Synchro.dfy`.
- Signatures of documents are membership in the set of what was signed; `secours.go` is not modelled.
- The signature of a configuration in `Synchro.dfy` is its content; that the text of the source determines it is taken for granted. Expiry is not part of it, as in the source.
- Seaux.Limiteur.Autoriser: time and tokens are real numbers, so rounding is not modelled.
- HTTP, TLS, Google sign-in, DNS, SQLite, nftables text, Android, command lines and deployment: plumbing around the decisions above.
- `adresseLibre` reading rows and settings that cannot be read, and registration itself beyond the address, the name and the proof.
